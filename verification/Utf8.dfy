/** The UTF-8 encoder of gtest.cc and the validator of gtest-printers.cc, against sections 3 and 4
    of RFC 3629. Bytes are numbers; `0x80 | low` is an addition because no bits overlap. */
module Utf8 {
  import opened Text

  type byte = x: int | 0 <= x < 256

  // ---------------------------------------------------------------- the encoding

  /** The bytes of section 3, for every number of up to 21 bits. */
  function Encoding(cp: nat): (bytes: seq<byte>)
    requires cp <= 0x1FFFFF
    ensures bytes != []
  {
    if cp <= 0x7F then [cp]
    else if cp <= 0x7FF then [0xC0 + cp / 64, 0x80 + cp % 64]
    else if cp <= 0xFFFF then [0xE0 + cp / 64 / 64, 0x80 + cp / 64 % 64, 0x80 + cp % 64]
    else [0xF0 + cp / 64 / 64 / 64, 0x80 + cp / 64 / 64 % 64, 0x80 + cp / 64 % 64, 0x80 + cp % 64]
  }

  predicate IsScalar(cp: int) {
    0 <= cp < 0xD800 || 0xDFFF < cp <= 0x10FFFF
  }

  predicate AllScalar(cps: seq<nat>) {
    forall k :: 0 <= k < |cps| ==> IsScalar(cps[k])
  }

  function EncodeAll(cps: seq<nat>): seq<byte>
    requires AllScalar(cps)
  {
    if cps == [] then [] else Encoding(cps[0]) + EncodeAll(cps[1..])
  }

  /** Well-formed UTF-8: the encoding of some Unicode scalar values. */
  ghost predicate IsEncoded(s: seq<byte>) {
    exists cps: seq<nat> :: AllScalar(cps) && EncodeAll(cps) == s
  }

  // ---------------------------------------------------------------- one character

  predicate IsUTF8TrailByte(t: byte) {
    0x80 <= t <= 0xBF
  }

  /** The length of the character at the front of `s`, after the grammar of section 4;
      0 when there is none. */
  function CharLength(s: seq<byte>): (n: nat)
    ensures n <= |s|
  {
    if s == [] then 0
    else if s[0] <= 0x7F then 1
    else if |s| >= 2 && 0xC2 <= s[0] <= 0xDF && IsUTF8TrailByte(s[1]) then 2
    else if |s| >= 3 && ThreeBytes(s[0], s[1]) && IsUTF8TrailByte(s[2]) then 3
    else if |s| >= 4 && FourBytes(s[0], s[1]) && IsUTF8TrailByte(s[2]) && IsUTF8TrailByte(s[3]) then 4
    else 0
  }

  predicate ThreeBytes(a: byte, b: byte) {
    || (a == 0xE0 && 0xA0 <= b <= 0xBF)
    || ((0xE1 <= a <= 0xEC || 0xEE <= a <= 0xEF) && IsUTF8TrailByte(b))
    || (a == 0xED && 0x80 <= b <= 0x9F)
  }

  predicate FourBytes(a: byte, b: byte) {
    || (a == 0xF0 && 0x90 <= b <= 0xBF)
    || (0xF1 <= a <= 0xF3 && IsUTF8TrailByte(b))
    || (a == 0xF4 && 0x80 <= b <= 0x8F)
  }

  /** The number that the character at the front of `s` stands for. */
  function Value(s: seq<byte>): int
    requires CharLength(s) > 0
  {
    match CharLength(s)
    case 1 => s[0]
    case 2 => Value2(s[0], s[1])
    case 3 => Value3(s[0], s[1], s[2])
    case _ => Value4(s[0], s[1], s[2], s[3])
  }

  function Value2(a: int, b: int): int {
    (a - 0xC0) * 64 + (b - 0x80)
  }

  function Value3(a: int, b: int, c: int): int {
    (a - 0xE0) * 4096 + (b - 0x80) * 64 + (c - 0x80)
  }

  function Value4(a: int, b: int, c: int, d: int): int {
    (a - 0xF0) * 262144 + (b - 0x80) * 4096 + (c - 0x80) * 64 + (d - 0x80)
  }

  /** Quotient and remainder by 64, from a number written with them. */
  lemma {:induction false} Chop(q: nat, r: nat)
    requires r < 64
    ensures (q * 64 + r) / 64 == q && (q * 64 + r) % 64 == r
  {
  }

  lemma {:induction false} Read3(a: byte, b: byte, c: byte)
    requires ThreeBytes(a, b) && IsUTF8TrailByte(c)
    ensures var v := Value3(a, b, c); 0x800 <= v <= 0xFFFF && IsScalar(v) && Encoding(v) == [a, b, c]
  {
    var q: nat := (a as int - 0xE0) * 64 + (b as int - 0x80);
    assert Value3(a, b, c) == q * 64 + (c as int - 0x80);
    Chop(a as int - 0xE0, b as int - 0x80);
    Chop(q, c as int - 0x80);
  }

  lemma {:induction false} Read4(a: byte, b: byte, c: byte, d: byte)
    requires FourBytes(a, b) && IsUTF8TrailByte(c) && IsUTF8TrailByte(d)
    ensures var v := Value4(a, b, c, d); 0x10000 <= v <= 0x10FFFF && Encoding(v) == [a, b, c, d]
  {
    var p: nat := (a as int - 0xF0) * 64 + (b as int - 0x80);
    var q: nat := p * 64 + (c as int - 0x80);
    assert Value4(a, b, c, d) == q * 64 + (d as int - 0x80);
    Chop(a as int - 0xF0, b as int - 0x80);
    Chop(p, c as int - 0x80);
    Chop(q, d as int - 0x80);
  }

  /** Every character is the encoding of its value, which is a scalar. */
  lemma {:induction false} CharIsScalar(s: seq<byte>)
    requires CharLength(s) > 0
    ensures IsScalar(Value(s)) && Encoding(Value(s)) == s[..CharLength(s)]
  {
    match CharLength(s)
    case 2 => Read2(s[0], s[1]);
    case 3 => Read3(s[0], s[1], s[2]);
    case 4 => Read4(s[0], s[1], s[2], s[3]);
    case _ =>
  }

  lemma {:induction false} Read2(a: byte, b: byte)
    requires 0xC2 <= a <= 0xDF && IsUTF8TrailByte(b)
    ensures var v := Value2(a, b); 0x80 <= v <= 0x7FF && Encoding(v) == [a, b]
  {
    Chop(a as int - 0xC0, b as int - 0x80);
  }

  lemma {:induction false} Write3(cp: nat)
    requires 0x800 <= cp <= 0xFFFF
    ensures var s := Encoding(cp);
            && Value3(s[0], s[1], s[2]) == cp && IsUTF8TrailByte(s[1]) && IsUTF8TrailByte(s[2])
            && (ThreeBytes(s[0], s[1]) <==> IsScalar(cp))
  {
    var q, c := cp / 64, cp % 64;
    var a, b := q / 64, q % 64;
    assert cp == q * 64 + c && q == a * 64 + b;
    assert Encoding(cp) == [0xE0 + a, 0x80 + b, 0x80 + c];
  }

  lemma {:induction false} Write4(cp: nat)
    requires 0x10000 <= cp <= 0x1FFFFF
    ensures var s := Encoding(cp);
            && Value4(s[0], s[1], s[2], s[3]) == cp && IsUTF8TrailByte(s[1]) && IsUTF8TrailByte(s[2]) && IsUTF8TrailByte(s[3])
            && 0xF0 <= s[0] && (FourBytes(s[0], s[1]) <==> IsScalar(cp))
  {
    var q, d := cp / 64, cp % 64;
    var p, c := q / 64, q % 64;
    var a, b := p / 64, p % 64;
    assert cp == q * 64 + d && q == p * 64 + c && p == a * 64 + b;
    assert Encoding(cp) == [0xF0 + a, 0x80 + b, 0x80 + c, 0x80 + d];
  }

  /** Every number that has an encoding is read back exactly when it is a scalar. */
  lemma {:induction false} EncodingIsChar(cp: nat, t: seq<byte>)
    requires cp <= 0x1FFFFF
    ensures IsScalar(cp) ==> CharLength(Encoding(cp) + t) == |Encoding(cp)| && Value(Encoding(cp) + t) == cp
    ensures !IsScalar(cp) ==> CharLength(Encoding(cp) + t) == 0
  {
    var e := Encoding(cp);
    assert forall k :: 0 <= k < |e| ==> (e + t)[k] == e[k];
    if 0x800 <= cp <= 0xFFFF {
      Write3(cp);
    } else if 0xFFFF < cp {
      Write4(cp);
    }
  }

  /** The bit patterns of section 3: a first byte that tells the length, then six bits in each byte. */
  lemma {:induction false} EncodingBytes(cp: nat)
    requires cp <= 0x1FFFFF
    ensures var e := Encoding(cp);
            && (cp < 0x80 ==> e == [cp])
            && (0x80 <= cp < 0x800 ==> |e| == 2 && 0xC0 <= e[0] < 0xE0 && cp == (e[0] as int - 0xC0) * 64 + (e[1] as int - 0x80))
            && (0x800 <= cp < 0x10000 ==>
                  && |e| == 3 && 0xE0 <= e[0] < 0xF0
                  && cp == (e[0] as int - 0xE0) * 4096 + (e[1] as int - 0x80) * 64 + (e[2] as int - 0x80))
            && (0x10000 <= cp ==>
                  && |e| == 4 && 0xF0 <= e[0] < 0xF8
                  && cp == (e[0] as int - 0xF0) * 262144 + (e[1] as int - 0x80) * 4096 + (e[2] as int - 0x80) * 64 + (e[3] as int - 0x80))
            && forall k :: 1 <= k < |e| ==> 0x80 <= e[k] < 0xC0
  {
    if 0x800 <= cp < 0x10000 {
      Write3(cp);
    } else if 0x10000 <= cp {
      Write4(cp);
    }
  }

  // ---------------------------------------------------------------- strings

  lemma {:induction false} EncodedStep(s: seq<byte>)
    requires s != []
    ensures IsEncoded(s) <==> CharLength(s) > 0 && IsEncoded(s[CharLength(s)..])
  {
    if IsEncoded(s) {
      var cps: seq<nat> :| AllScalar(cps) && EncodeAll(cps) == s;
      EncodedRest(s, cps);
    }
    if CharLength(s) > 0 && IsEncoded(s[CharLength(s)..]) {
      var rest: seq<nat> :| AllScalar(rest) && EncodeAll(rest) == s[CharLength(s)..];
      EncodedFirst(s, rest);
    }
  }

  lemma {:induction false} EncodedRest(s: seq<byte>, cps: seq<nat>)
    requires AllScalar(cps) && cps != [] && EncodeAll(cps) == s
    ensures CharLength(s) > 0 && IsEncoded(s[CharLength(s)..])
  {
    var cp, t := cps[0], EncodeAll(cps[1..]);
    EncodingIsChar(cp, t);
    assert (Encoding(cp) + t)[|Encoding(cp)|..] == t;
  }

  lemma {:induction false} EncodedFirst(s: seq<byte>, rest: seq<nat>)
    requires CharLength(s) > 0 && AllScalar(rest) && EncodeAll(rest) == s[CharLength(s)..]
    ensures IsEncoded(s)
  {
    CharIsScalar(s);
    var cps: seq<nat> := [Value(s)] + rest;
    assert cps[1..] == rest;
    assert s == s[..CharLength(s)] + s[CharLength(s)..];
    assert AllScalar(cps) && EncodeAll(cps) == s;
  }

  /** A byte string has at most one reading. */
  lemma {:induction false} ReadingIsUnique(a: seq<nat>, b: seq<nat>)
    requires AllScalar(a) && AllScalar(b) && EncodeAll(a) == EncodeAll(b)
    ensures a == b
  {
    if a != [] && b != [] {
      EncodingIsChar(a[0], EncodeAll(a[1..]));
      EncodingIsChar(b[0], EncodeAll(b[1..]));
      assert EncodeAll(a[1..]) == EncodeAll(a)[|Encoding(a[0])|..] == EncodeAll(b[1..]);
      ReadingIsUnique(a[1..], b[1..]);
      assert a == [a[0]] + a[1..] && b == [b[0]] + b[1..];
    }
  }

  /** `IsValidUTF8` accepts exactly the well-formed strings. */
  method IsValidUTF8(s: seq<byte>) returns (valid: bool)
    ensures valid <==> IsEncoded(s)
  {
    var i := 0;
    assert s[i..] == s;
    while i < |s|
      invariant 0 <= i <= |s|
      invariant IsEncoded(s) <==> IsEncoded(s[i..])
    {
      ghost var rest := s[i..];
      EncodedStep(rest);
      assert forall n :: 0 <= n <= |rest| ==> rest[n..] == s[i + n..];
      var lead := s[i];
      i := i + 1;
      if lead <= 0x7F {
        continue;
      }
      if lead < 0xC2 {
        return false;
      } else if lead <= 0xDF && i + 1 <= |s| && IsUTF8TrailByte(s[i]) {
        i := i + 1;
      } else if 0xE0 <= lead <= 0xEF && i + 2 <= |s| && IsUTF8TrailByte(s[i]) && IsUTF8TrailByte(s[i + 1])
                && (lead != 0xE0 || s[i] >= 0xA0) && (lead != 0xED || s[i] < 0xA0) {
        i := i + 2;
      } else if 0xF0 <= lead <= 0xF4 && i + 3 <= |s| && IsUTF8TrailByte(s[i]) && IsUTF8TrailByte(s[i + 1]) && IsUTF8TrailByte(s[i + 2])
                && (lead != 0xF0 || s[i] >= 0x90) && (lead != 0xF4 || s[i] < 0x90) {
        i := i + 3;
      } else {
        return false;
      }
    }
    assert s[i..] == EncodeAll([]);
    return true;
  }

  /** Surrogates and numbers above 0x10FFFF are no scalars, and the bytes C0, C1 and F5 to FF stand
      nowhere in well-formed text. */
  lemma {:induction false} NeverAppear(cp: nat, s: seq<byte>)
    ensures 0xD800 <= cp <= 0xDFFF || cp >= 0x110000 <==> !IsScalar(cp)
    ensures IsEncoded(s) ==> forall k :: 0 <= k < |s| ==> s[k] < 0xC0 || 0xC2 <= s[k] <= 0xF4
  {
    if IsEncoded(s) {
      var cps: seq<nat> :| AllScalar(cps) && EncodeAll(cps) == s;
      EncodedBytes(cps);
    }
  }

  lemma {:induction false} BytesOfScalar(cp: nat)
    requires IsScalar(cp)
    ensures forall k :: 0 <= k < |Encoding(cp)| ==> Encoding(cp)[k] < 0xC0 || 0xC2 <= Encoding(cp)[k] <= 0xF4
  {
    EncodingBytes(cp);
  }

  lemma {:induction false} EncodedBytes(cps: seq<nat>)
    requires AllScalar(cps)
    ensures forall k :: 0 <= k < |EncodeAll(cps)| ==> EncodeAll(cps)[k] < 0xC0 || 0xC2 <= EncodeAll(cps)[k] <= 0xF4
  {
    if cps != [] {
      BytesOfScalar(cps[0]);
      EncodedBytes(cps[1..]);
    }
  }

  // ---------------------------------------------------------------- the encoder

  predicate IsAscii(s: string) {
    forall k :: 0 <= k < |s| ==> 0 < s[k] as int <= 0x7F
  }

  function Bytes(s: string): (bytes: seq<byte>)
    requires IsAscii(s)
    ensures |bytes| == |s|
  {
    seq(|s|, k requires 0 <= k < |s| => s[k] as int)
  }

  /** `FormatHexUInt32`. */
  function Hex(n: nat): (s: string)
    ensures IsAscii(s)
  {
    var digit := if n % 16 < 10 then '0' + (n % 16) as char else 'A' + (n % 16 - 10) as char;
    (if n < 16 then "" else Hex(n / 16)) + [digit]
  }

  /** The value of a digit in base 16. */
  function HexDigit(c: char): Option<nat> {
    if '0' <= c <= '9' then Some((c - '0') as nat)
    else if 'A' <= c <= 'F' then Some(10 + (c - 'A') as nat)
    else None
  }

  predicate IsHex(s: string) {
    forall k :: 0 <= k < |s| ==> HexDigit(s[k]).Some?
  }

  /** The value of a string of such digits. */
  function HexValue(s: string): nat
    requires IsHex(s)
  {
    if s == "" then 0 else HexValue(s[..|s| - 1]) * 16 + HexDigit(s[|s| - 1]).value
  }

  lemma {:induction false} HexStep(m: nat, n: nat, c: char)
    requires HexDigit(c).Some? && m / 16 == n && m % 16 == HexDigit(c).value
    ensures Hex(m) == (if n == 0 then "" else Hex(n)) + [c]
  {
  }

  lemma {:induction false} Div16(n: nat, d: nat)
    requires d < 16
    ensures (n * 16 + d) / 16 == n && (n * 16 + d) % 16 == d
  {
  }

  lemma {:induction false} HexValueStep(front: string, c: char)
    requires IsHex(front) && HexDigit(c).Some?
    ensures IsHex(front + [c])
    ensures var m := HexValue(front + [c]); m / 16 == HexValue(front) && m % 16 == HexDigit(c).value
  {
    assert (front + [c])[..|front|] == front;
    Div16(HexValue(front), HexDigit(c).value);
  }

  lemma {:induction false} HexSnoc(front: string, c: char)
    requires IsHex(front) && HexDigit(c).Some? && (if front == "" then c != '0' else HexValue(front) > 0 && Hex(HexValue(front)) == front)
    ensures IsHex(front + [c]) && HexValue(front + [c]) > 0 && Hex(HexValue(front + [c])) == front + [c]
  {
    HexValueStep(front, c);
    HexStep(HexValue(front + [c]), HexValue(front), c);
    EmptyEnds([c]);
  }

  /** The digits of a number, without a zero in front. */
  lemma {:induction false} HexOfDigits(digits: string)
    requires digits != "" && digits[0] != '0' && IsHex(digits)
    ensures HexValue(digits) > 0 && Hex(HexValue(digits)) == digits
    decreases |digits|
  {
    var front, c := digits[..|digits| - 1], digits[|digits| - 1];
    assert digits == front + [c];
    if front != "" {
      HexOfDigits(front);
    }
    HexSnoc(front, c);
  }

  function InvalidText(cp: nat): (s: string)
    ensures IsAscii(s)
  {
    "(Invalid Unicode 0x" + Hex(cp) + ")"
  }

  /** What `CodePointToUtf8` returns; the encoding of 0 ends the C string before it begins. */
  function CodePointText(cp: nat): seq<byte> {
    if cp > 0x1FFFFF then Bytes(InvalidText(cp)) else if cp == 0 then [] else Encoding(cp)
  }

  /** The lowest six bits, and the bits above them. */
  method ChopLowBits(bits: nat) returns (low: nat, rest: nat)
    ensures bits == rest * 64 + low && low < 64
  {
    low, rest := bits % 64, bits / 64;
  }

  /** The bytes of a buffer before its first NUL. */
  method CString(str: array<byte>) returns (s: seq<byte>)
    requires exists k :: 0 <= k < str.Length && str[k] == 0
    ensures exists k :: 0 <= k < str.Length && str[k] == 0 && s == str[..k] && 0 !in s
  {
    var n := 0;
    while str[n] != 0
      invariant 0 <= n < str.Length
      invariant forall k :: 0 <= k < n ==> str[k] != 0
      decreases str.Length - n
    {
      assert n + 1 < str.Length;
      n := n + 1;
    }
    s := str[..n];
  }

  /** The buffer holds these bytes and then a NUL. */
  predicate Holds(str: array<byte>, bytes: seq<byte>)
    reads str
  {
    |bytes| < str.Length && str[..|bytes|] == bytes && str[|bytes|] == 0
  }

  lemma {:induction false} FirstNul(str: array<byte>, bytes: seq<byte>, k: nat)
    requires Holds(str, bytes) && 0 !in bytes && k < str.Length && str[k] == 0 && 0 !in str[..k]
    ensures str[..k] == bytes
  {
    assert forall j :: 0 <= j < |bytes| ==> str[j] == str[..|bytes|][j] && str[j] != 0;
    assert forall j :: 0 <= j < k ==> str[..k][j] == str[j];
  }

  /** The encoding of a number with these digits in base 64. */
  lemma {:induction false} Encoding2(a: nat, b: nat)
    requires b < 64 && 0x7F < a * 64 + b <= 0x7FF
    ensures Encoding(a * 64 + b) == [0xC0 + a, 0x80 + b]
  {
  }

  lemma {:induction false} Encoding3(a: nat, b: nat, c: nat)
    requires b < 64 && c < 64 && 0x7FF < (a * 64 + b) * 64 + c <= 0xFFFF
    ensures Encoding((a * 64 + b) * 64 + c) == [0xE0 + a, 0x80 + b, 0x80 + c]
  {
    Chop(a, b);
    Chop(a * 64 + b, c);
  }

  lemma {:induction false} Encoding4(a: nat, b: nat, c: nat, d: nat)
    requires b < 64 && c < 64 && d < 64 && 0xFFFF < ((a * 64 + b) * 64 + c) * 64 + d <= 0x1FFFFF
    ensures Encoding(((a * 64 + b) * 64 + c) * 64 + d) == [0xF0 + a, 0x80 + b, 0x80 + c, 0x80 + d]
  {
    Chop(a, b);
    Chop(a * 64 + b, c);
    Chop((a * 64 + b) * 64 + c, d);
  }

  method CodePointToUtf8(codePoint: nat) returns (bytes: seq<byte>)
    requires codePoint < 0x1_0000_0000
    ensures bytes == CodePointText(codePoint)
  {
    if codePoint > 0x1FFFFF {
      return Bytes(InvalidText(codePoint));
    }
    var str := new byte[5](_ => 1);
    Write(str, codePoint);
    bytes := CString(str);
    var k :| 0 <= k < str.Length && str[k] == 0 && bytes == str[..k] && 0 !in bytes;
    FirstNul(str, CodePointText(codePoint), k);
  }

  /** The bytes of a code point, from the last to the first. */
  method Write(str: array<byte>, codePoint: nat)
    requires str.Length == 5 && codePoint <= 0x1FFFFF
    modifies str
    ensures Holds(str, CodePointText(codePoint)) && 0 !in CodePointText(codePoint)
  {
    if codePoint <= 0x7F {
      str[1] := 0;
      str[0] := codePoint;
      assert codePoint > 0 ==> str[..1] == [codePoint];
    } else if codePoint <= 0x7FF {
      WriteTwo(str, codePoint);
    } else if codePoint <= 0xFFFF {
      WriteThree(str, codePoint);
    } else {
      WriteFour(str, codePoint);
    }
  }

  method WriteTwo(str: array<byte>, codePoint: nat)
    requires str.Length == 5 && 0x7F < codePoint <= 0x7FF
    modifies str
    ensures Holds(str, Encoding(codePoint)) && 0 !in Encoding(codePoint)
  {
    var b, a := ChopLowBits(codePoint);
    Encoding2(a, b);
    str[2] := 0;
    str[1] := 0x80 + b;
    str[0] := 0xC0 + a;
    assert str[..2] == [str[0], str[1]];
  }

  method WriteThree(str: array<byte>, codePoint: nat)
    requires str.Length == 5 && 0x7FF < codePoint <= 0xFFFF
    modifies str
    ensures Holds(str, Encoding(codePoint)) && 0 !in Encoding(codePoint)
  {
    var c, rest := ChopLowBits(codePoint);
    var b, a := ChopLowBits(rest);
    Encoding3(a, b, c);
    str[3] := 0;
    str[2] := 0x80 + c;
    str[1] := 0x80 + b;
    str[0] := 0xE0 + a;
    assert str[..3] == [str[0], str[1], str[2]];
  }

  method WriteFour(str: array<byte>, codePoint: nat)
    requires str.Length == 5 && 0xFFFF < codePoint <= 0x1FFFFF
    modifies str
    ensures Holds(str, Encoding(codePoint)) && 0 !in Encoding(codePoint)
  {
    var d, rest := ChopLowBits(codePoint);
    var c, rest' := ChopLowBits(rest);
    var b, a := ChopLowBits(rest');
    Encoding4(a, b, c, d);
    str[4] := 0;
    str[3] := 0x80 + d;
    str[2] := 0x80 + c;
    str[1] := 0x80 + b;
    str[0] := 0xF0 + a;
    assert str[..4] == [str[0], str[1], str[2], str[3]];
  }

  // ---------------------------------------------------------------- encoder and validator

  function TextAll(cps: seq<nat>): seq<byte> {
    if cps == [] then [] else CodePointText(cps[0]) + TextAll(cps[1..])
  }

  lemma {:induction false} TextAllIsEncodeAll(cps: seq<nat>)
    requires AllScalar(cps) && 0 !in cps
    ensures TextAll(cps) == EncodeAll(cps) && 0 !in EncodeAll(cps)
  {
    if cps != [] {
      NoNul(cps[0]);
      TextAllIsEncodeAll(cps[1..]);
    }
  }

  lemma {:induction false} NoNul(cp: nat)
    requires 0 < cp <= 0x1FFFFF
    ensures 0 !in Encoding(cp)
  {
  }

  lemma {:induction false} NulIsEncoded(cps: seq<nat>)
    requires AllScalar(cps) && 0 in cps
    ensures 0 in EncodeAll(cps)
  {
    if cps[0] == 0 {
      assert EncodeAll(cps)[0] == 0;
    } else {
      NulIsEncoded(cps[1..]);
    }
  }

  /** The byte strings without NUL that pass the validator are exactly the concatenations of
      encoded scalar values other than 0. */
  lemma {:induction false} ValidatorMeetsEncoder(s: seq<byte>)
    ensures IsEncoded(s) && 0 !in s <==> exists cps: seq<nat> :: AllScalar(cps) && 0 !in cps && TextAll(cps) == s
  {
    if IsEncoded(s) && 0 !in s {
      var cps: seq<nat> :| AllScalar(cps) && EncodeAll(cps) == s;
      if 0 in cps {
        NulIsEncoded(cps);
      } else {
        TextAllIsEncodeAll(cps);
      }
    }
    forall cps: seq<nat> | AllScalar(cps) && 0 !in cps && TextAll(cps) == s ensures IsEncoded(s) && 0 !in s {
      TextAllIsEncodeAll(cps);
    }
  }

  /** That concatenation can be read back in one way only. */
  lemma {:induction false} TextIsUnique(a: seq<nat>, b: seq<nat>)
    requires AllScalar(a) && AllScalar(b) && 0 !in a && 0 !in b && TextAll(a) == TextAll(b)
    ensures a == b
  {
    TextAllIsEncodeAll(a);
    TextAllIsEncodeAll(b);
    ReadingIsUnique(a, b);
  }

  lemma {:induction false} AsciiBefore(s: seq<byte>, t: seq<byte>)
    requires forall k :: 0 <= k < |s| ==> s[k] <= 0x7F
    ensures IsEncoded(s + t) <==> IsEncoded(t)
  {
    if s == [] {
      assert s + t == t;
    } else {
      EncodedStep(s + t);
      assert (s + t)[1..] == s[1..] + t;
      AsciiBefore(s[1..], t);
    }
  }

  /** What a code point is turned into fits into valid text, unless it is a surrogate or lies above
      Unicode in the range that still has an encoding. */
  lemma {:induction false} TextBefore(cp: nat, t: seq<byte>)
    ensures IsEncoded(CodePointText(cp) + t) <==> IsEncoded(t) && (IsScalar(cp) || cp > 0x1FFFFF)
  {
    if cp > 0x1FFFFF {
      AsciiBefore(CodePointText(cp), t);
    } else if cp == 0 {
      assert CodePointText(cp) + t == t;
    } else {
      var s := CodePointText(cp) + t;
      EncodingIsChar(cp, t);
      EncodedStep(s);
      assert s[|Encoding(cp)|..] == t;
    }
  }

  lemma {:induction false} TextIsValid(cps: seq<nat>)
    ensures IsEncoded(TextAll(cps)) <==> forall k :: 0 <= k < |cps| ==> IsScalar(cps[k]) || cps[k] > 0x1FFFFF
  {
    if cps == [] {
      assert AllScalar([]) && EncodeAll([]) == [];
    } else {
      TextIsValid(cps[1..]);
      TextBefore(cps[0], TextAll(cps[1..]));
      assert forall k :: 1 <= k < |cps| ==> cps[k] == cps[1..][k - 1];
    }
  }

  /** The message holds the digits of the number in base 16. */
  lemma {:induction false} MessageIs(digits: string)
    requires digits != "" && digits[0] != '0' && IsHex(digits) && HexValue(digits) > 0x1FFFFF
    ensures var message := "(Invalid Unicode 0x" + digits + ")"; IsAscii(message) && CodePointText(HexValue(digits)) == Bytes(message)
  {
    HexOfDigits(digits);
    assert InvalidText(HexValue(digits)) == "(Invalid Unicode 0x" + digits + ")";
  }

  /** The message comes exactly for the numbers of more than 21 bits. */
  lemma {:induction false} MessageAbove21Bits(cp: nat)
    ensures CodePointText(cp) == Bytes(InvalidText(cp)) <==> cp > 0x1FFFFF
  {
    assert |InvalidText(cp)| > 4;
  }

  /** What the tests expect of numbers with one to four bytes. */
  lemma {:induction false} TestedEncodings()
    ensures CodePointText(0) == [] && CodePointText('a' as int) == [0x61] && CodePointText(0x7F) == [0x7F]
    ensures CodePointText(0xD3) == [0xC3, 0x93] && CodePointText(0x576) == [0xD5, 0xB6]
    ensures CodePointText(0x8D3) == [0xE0, 0xA3, 0x93] && CodePointText(0xC74D) == [0xEC, 0x9D, 0x8D]
    ensures CodePointText(0x108D3) == [0xF0, 0x90, 0xA3, 0x93] && CodePointText(0x10400) == [0xF0, 0x90, 0x90, 0x80]
    ensures CodePointText(0x108634) == [0xF4, 0x88, 0x98, 0xB4]
  {
  }

  /** The first number above Unicode is documented to become a message. It is encoded instead, and
      the validator refuses it. */
  lemma {:induction false} AboveUnicodeIsEncoded()
    ensures CodePointText(0x110000) == [0xF4, 0x90, 0x80, 0x80] && !IsEncoded(CodePointText(0x110000))
  {
    Encoding4(4, 16, 0, 0);
    TextBefore(0x110000, []);
    assert CodePointText(0x110000) + [] == CodePointText(0x110000);
  }

  // ---------------------------------------------------------------- wide strings

  /** `wide16` says that `wchar_t` has 16 bits. */
  predicate IsUtf16SurrogatePair(wide16: bool, first: nat, second: nat) {
    wide16 && 0xD800 <= first < 0xDC00 && 0xDC00 <= second < 0xE000
  }

  function CreateCodePoint(first: nat, second: nat): nat {
    first % 1024 * 1024 + second % 1024 + 0x10000
  }

  /** The code points of a wide string, up to its terminator. */
  function CodePoints(wide16: bool, units: seq<nat>): seq<nat> {
    if units == [] || units[0] == 0 then []
    else if |units| > 1 && IsUtf16SurrogatePair(wide16, units[0], units[1]) then
      [CreateCodePoint(units[0], units[1])] + CodePoints(wide16, units[2..])
    else [units[0]] + CodePoints(wide16, units[1..])
  }

  /** `WideStringToUtf8`; the terminator follows `str`, and -1 stands for the whole string. */
  method WideStringToUtf8(wide16: bool, str: seq<nat>, numChars: int) returns (bytes: seq<byte>)
    requires numChars <= |str| && forall k :: 0 <= k < |str| ==> str[k] < 0x1_0000_0000
    requires numChars == -1 ==> 0 !in str
    ensures bytes == TextAll(CodePoints(wide16, if numChars == -1 then str else if numChars < 0 then [] else str[..numChars]))
  {
    var n := if numChars == -1 then |str| else if numChars < 0 then 0 else numChars;
    var units := str[..n];
    assert numChars == -1 ==> units == str;
    bytes := [];
    var i := 0;
    while i < n
      invariant 0 <= i <= n
      invariant bytes + TextAll(CodePoints(wide16, units[i..])) == TextAll(CodePoints(wide16, units))
    {
      if str[i] == 0 {
        assert CodePoints(wide16, units[i..]) == [];
        break;
      }
      var codePoint, next := NextCodePoint(wide16, units, i);
      FirstText(codePoint, CodePoints(wide16, units[next..]), bytes);
      var text := CodePointToUtf8(codePoint);
      bytes := bytes + text;
      i := next;
    }
  }

  /** The body of the loop: one unit, or a surrogate pair. */
  method NextCodePoint(wide16: bool, str: seq<nat>, i: nat) returns (codePoint: nat, next: nat)
    requires i < |str| && str[i] != 0 && forall k :: 0 <= k < |str| ==> str[k] < 0x1_0000_0000
    ensures i < next <= |str| && codePoint < 0x1_0000_0000
    ensures CodePoints(wide16, str[i..]) == [codePoint] + CodePoints(wide16, str[next..])
  {
    CodePointsAt(wide16, str, i);
    if i + 1 < |str| && IsUtf16SurrogatePair(wide16, str[i], str[i + 1]) {
      codePoint := CreateCodePoint(str[i], str[i + 1]);
      next := i + 2;
    } else {
      codePoint := str[i];
      next := i + 1;
    }
  }

  lemma {:induction false} CodePointsAt(wide16: bool, units: seq<nat>, i: nat)
    requires i < |units|
    ensures units[i] == 0 ==> CodePoints(wide16, units[i..]) == []
    ensures var pair := i + 1 < |units| && IsUtf16SurrogatePair(wide16, units[i], units[i + 1]);
            && (units[i] != 0 && pair ==> CodePoints(wide16, units[i..]) == [CreateCodePoint(units[i], units[i + 1])] + CodePoints(wide16, units[i + 2..]))
            && (units[i] != 0 && !pair ==> CodePoints(wide16, units[i..]) == [units[i]] + CodePoints(wide16, units[i + 1..]))
  {
    var rest := units[i..];
    assert rest[1..] == units[i + 1..];
    if |rest| > 1 {
      assert rest[2..] == units[i + 2..];
    }
  }

  lemma {:induction false} FirstText(cp: nat, cps: seq<nat>, before: seq<byte>)
    ensures before + TextAll([cp] + cps) == before + CodePointText(cp) + TextAll(cps)
  {
    assert ([cp] + cps)[1..] == cps;
  }

  function HighUnit(cp: nat): nat
    requires cp >= 0x10000
  {
    0xD800 + (cp - 0x10000) / 1024
  }

  function LowUnit(cp: nat): nat
    requires cp >= 0x10000
  {
    0xDC00 + (cp - 0x10000) % 1024
  }

  lemma {:induction false} PairIsRead(cp: nat)
    requires 0x10000 <= cp <= 0x10FFFF
    ensures IsUtf16SurrogatePair(true, HighUnit(cp), LowUnit(cp)) && CreateCodePoint(HighUnit(cp), LowUnit(cp)) == cp
  {
  }

  /** UTF-16, after section 2.1 of RFC 2781, or UTF-32. */
  function Units(wide16: bool, cps: seq<nat>): seq<nat> {
    if cps == [] then []
    else (if wide16 && cps[0] > 0xFFFF then [HighUnit(cps[0]), LowUnit(cps[0])] else [cps[0]]) + Units(wide16, cps[1..])
  }

  lemma {:induction false} FirstUnits(wide16: bool, cp: nat, rest: seq<nat>)
    requires IsScalar(cp) && cp != 0
    ensures var units := if wide16 && cp > 0xFFFF then [HighUnit(cp), LowUnit(cp)] else [cp];
            CodePoints(wide16, units + rest) == [cp] + CodePoints(wide16, rest)
  {
    if wide16 && cp > 0xFFFF {
      PairIsRead(cp);
      assert ([HighUnit(cp), LowUnit(cp)] + rest)[2..] == rest;
    } else {
      assert ([cp] + rest)[1..] == rest;
    }
  }

  /** Well-formed wide text has its own code points, so it becomes their UTF-8 encoding. */
  lemma {:induction false} WideTextIsTranscoded(wide16: bool, cps: seq<nat>)
    requires AllScalar(cps) && 0 !in cps
    ensures CodePoints(wide16, Units(wide16, cps)) == cps
    ensures TextAll(CodePoints(wide16, Units(wide16, cps))) == EncodeAll(cps)
  {
    TextAllIsEncodeAll(cps);
    if cps != [] {
      WideTextIsTranscoded(wide16, cps[1..]);
      FirstUnits(wide16, cps[0], Units(wide16, cps[1..]));
      assert cps == [cps[0]] + cps[1..];
    }
  }

  /** Nothing after a terminator counts. */
  lemma {:induction false} StopsOnNul(wide16: bool, units: seq<nat>, rest: seq<nat>)
    ensures CodePoints(wide16, units + [0] + rest) == CodePoints(wide16, units)
    decreases |units|
  {
    var all := units + [0] + rest;
    if units != [] && units[0] != 0 {
      assert all[1..] == units[1..] + [0] + rest;
      StopsOnNul(wide16, units[1..], rest);
      if |units| > 1 {
        assert all[2..] == units[2..] + [0] + rest;
        StopsOnNul(wide16, units[2..], rest);
      }
    }
  }

  /** What the tests expect of a pair of surrogates: one code point where characters have 16 bits. */
  lemma {:induction false} TestedPair()
    ensures TextAll(CodePoints(true, [0xD801, 0xDC00])) == [0xF0, 0x90, 0x90, 0x80]
    ensures CodePoints(false, [0xD801, 0xDC00]) == [0xD801, 0xDC00]
  {
    TestedEncodings();
    assert CodePoints(true, [0xD801, 0xDC00]) == [0x10400];
    assert CodePoints(false, [0xDC00]) == [0xDC00];
  }
}
