/**
 * The JavaScript string operations the client relies on, over `string` (a
 * sequence of Unicode scalar values): `trim`, `toLowerCase`, `includes`,
 * `split(sep)[0]`, `Number.prototype.toString` on integers, the `\d` class of
 * regular expressions, and `charCodeAt` (UTF-16 code units).
 */
module Text {
  import opened Wrappers

  // ---------------------------------------------------------------------------
  // trim

  /** The WhiteSpace and LineTerminator code points of ECMAScript, which `trim` removes. */
  predicate IsWhitespace(c: char) {
    || c == '\t' || c == '\n' || c == '\U{000B}' || c == '\U{000C}' || c == '\r' || c == ' '
    || c == '\U{00A0}' || c == '\U{1680}' || ('\U{2000}' <= c <= '\U{200A}')
    || c == '\U{2028}' || c == '\U{2029}' || c == '\U{202F}' || c == '\U{205F}'
    || c == '\U{3000}' || c == '\U{FEFF}'
  }

  /** A string made of whitespace only (the empty string included). */
  predicate IsBlank(s: string) {
    forall i :: 0 <= i < |s| ==> IsWhitespace(s[i])
  }

  /** `s` without its leading whitespace: a suffix of `s` that starts with a non-blank. */
  function TrimStart(s: string): (r: string)
    ensures |r| <= |s| && r == s[|s| - |r|..]
    ensures forall i :: 0 <= i < |s| - |r| ==> IsWhitespace(s[i])
    ensures r == [] || !IsWhitespace(r[0])
  {
    if s != [] && IsWhitespace(s[0]) then TrimStart(s[1..]) else s
  }

  /** `s` without its trailing whitespace: a prefix of `s` that ends with a non-blank. */
  function TrimEnd(s: string): (r: string)
    ensures |r| <= |s| && r == s[..|r|]
    ensures forall i :: |r| <= i < |s| ==> IsWhitespace(s[i])
    ensures r == [] || !IsWhitespace(r[|r| - 1])
  {
    if s != [] && IsWhitespace(s[|s| - 1]) then TrimEnd(s[..|s| - 1]) else s
  }

  /**
   * `String.prototype.trim`: `s` with its leading and trailing whitespace
   * removed — a slice of `s` with only whitespace before and after it, that
   * neither starts nor ends with whitespace itself. So `!s.trim()` holds
   * exactly for the blank strings.
   */
  function Trim(s: string): (r: string)
    ensures exists i {:trigger OccursAt(r, s, i)} :: OccursAt(r, s, i) && IsBlank(s[..i]) && IsBlank(s[i + |r|..])
    ensures r == [] || (!IsWhitespace(r[0]) && !IsWhitespace(r[|r| - 1]))
    ensures r == [] <==> IsBlank(s)
  {
    var t := TrimStart(s);
    var r := TrimEnd(t);
    var i := |s| - |t|;
    SliceAround(s, t, r, i, i + |r|);
    r
  }

  /**
   * A suffix `t` of `s` from `i` preceded only by whitespace and not starting
   * with it, and a prefix `r` of `t` followed only by whitespace and not
   * ending with it: `r` occurs in `s` at `i`, with only whitespace before it
   * and from `e` on, and it is empty exactly when `s` is blank.
   */
  lemma SliceAround(s: string, t: string, r: string, i: int, e: int)
    requires |t| <= |s| && i == |s| - |t| && t == s[i..] && forall k :: 0 <= k < i ==> IsWhitespace(s[k])
    requires t == [] || !IsWhitespace(t[0])
    requires |r| <= |t| && e == i + |r| && r == t[..|r|] && forall k :: |r| <= k < |t| ==> IsWhitespace(t[k])
    requires r == [] || !IsWhitespace(r[|r| - 1])
    ensures OccursAt(r, s, i) && IsBlank(s[..i]) && IsBlank(s[e..])
    ensures r == [] || (!IsWhitespace(r[0]) && !IsWhitespace(r[|r| - 1]))
    ensures r == [] <==> IsBlank(s)
  {
    assert IsBlank(s[..i]);
    forall k | 0 <= k < |s| - e
      ensures IsWhitespace(s[e..][k])
    {
      assert s[e..][k] == t[|r| + k];
    }
    if r == [] {
      assert t == [];
      assert s == s[..i];
    } else {
      assert r[0] == t[0];
      assert s[e - 1] == r[|r| - 1];
    }
  }

  lemma BlankBefore(s: string, i: int)
    requires 0 <= i <= |s| && IsBlank(s[..i])
    ensures forall k :: 0 <= k < i ==> IsWhitespace(s[k])
  {
    forall k | 0 <= k < i
      ensures IsWhitespace(s[k])
    {
      assert s[..i][k] == s[k];
    }
  }

  lemma BlankFrom(s: string, e: int)
    requires 0 <= e <= |s| && IsBlank(s[e..])
    ensures forall k :: e <= k < |s| ==> IsWhitespace(s[k])
  {
    forall k | e <= k < |s|
      ensures IsWhitespace(s[k])
    {
      assert s[e..][k - e] == s[k];
    }
  }

  /**
   * Two slices of `s`, each with only characters satisfying `p` around it and
   * each empty or neither starting nor ending with such a character, are the
   * same slice.
   */
  lemma SameSlice(s: string, p: char -> bool, r: string, i: int, t: string, j: int)
    requires OccursAt(r, s, i) && OccursAt(t, s, j)
    requires forall k :: 0 <= k < i ==> p(s[k])
    requires forall k :: i + |r| <= k < |s| ==> p(s[k])
    requires forall k :: 0 <= k < j ==> p(s[k])
    requires forall k :: j + |t| <= k < |s| ==> p(s[k])
    requires r == [] || (!p(r[0]) && !p(r[|r| - 1]))
    requires t == [] || (!p(t[0]) && !p(t[|t| - 1]))
    ensures r == t
  {
    if r != [] {
      assert r[0] == s[i] && r[|r| - 1] == s[i + |r| - 1];
    }
    if t != [] {
      assert t[0] == s[j] && t[|t| - 1] == s[j + |t| - 1];
    }
    if r != [] && t != [] {
      assert i == j && |r| == |t|;
    }
  }

  /** Only one slice of `s` has the properties `Trim` ensures, so they say exactly what `trim` returns. */
  lemma TrimUnique(s: string, r: string, i: int)
    requires OccursAt(r, s, i) && IsBlank(s[..i]) && IsBlank(s[i + |r|..])
    requires r == [] || (!IsWhitespace(r[0]) && !IsWhitespace(r[|r| - 1]))
    ensures r == Trim(s)
  {
    var t := Trim(s);
    var j :| OccursAt(t, s, j) && IsBlank(s[..j]) && IsBlank(s[j + |t|..]);
    SameTrimmed(s, r, i, t, j);
  }

  /** Two slices of `s` that both have the properties `Trim` ensures are equal. */
  lemma SameTrimmed(s: string, r: string, i: int, t: string, j: int)
    requires OccursAt(r, s, i) && IsBlank(s[..i]) && IsBlank(s[i + |r|..])
    requires r == [] || (!IsWhitespace(r[0]) && !IsWhitespace(r[|r| - 1]))
    requires OccursAt(t, s, j) && IsBlank(s[..j]) && IsBlank(s[j + |t|..])
    requires t == [] || (!IsWhitespace(t[0]) && !IsWhitespace(t[|t| - 1]))
    ensures r == t
  {
    BlankBefore(s, i);
    BlankFrom(s, i + |r|);
    BlankBefore(s, j);
    BlankFrom(s, j + |t|);
    SameSlice(s, IsWhitespace, r, i, t, j);
  }

  // ---------------------------------------------------------------------------
  // toLowerCase

  /** Lower-cases an ASCII capital; every other character is kept. */
  function LowerChar(c: char): char {
    if 'A' <= c <= 'Z' then (c as int + 32) as char else c
  }

  /** `String.prototype.toLowerCase`, restricted to the ASCII letters. */
  function ToLowerCase(s: string): (r: string)
    ensures |r| == |s|
    ensures forall i :: 0 <= i < |r| ==> !('A' <= r[i] <= 'Z')
    ensures forall i :: 0 <= i < |r| ==> LowerChar(r[i]) == LowerChar(s[i])
  {
    seq(|s|, i requires 0 <= i < |s| => LowerChar(s[i]))
  }

  // ---------------------------------------------------------------------------
  // includes

  /** `needle` occurs in `hay` starting at index `i`. */
  predicate OccursAt(needle: string, hay: string, i: int) {
    0 <= i && i + |needle| <= |hay| && hay[i..i + |needle|] == needle
  }

  predicate IsPrefixOf(p: string, s: string) {
    |p| <= |s| && s[..|p|] == p
  }

  lemma OccursShift(needle: string, hay: string, i: nat)
    requires hay != []
    ensures OccursAt(needle, hay[1..], i) <==> OccursAt(needle, hay, i + 1)
  {
    if i + |needle| <= |hay[1..]| {
      assert hay[1..][i..i + |needle|] == hay[i + 1..i + 1 + |needle|];
    }
  }

  /** `hay.includes(needle)`: true iff `needle` occurs somewhere in `hay`. */
  function Includes(hay: string, needle: string): (b: bool)
    ensures b <==> exists i :: OccursAt(needle, hay, i)
    decreases |hay|
  {
    if IsPrefixOf(needle, hay) then
      assert OccursAt(needle, hay, 0);
      true
    else if hay == [] then
      false
    else
      var b := Includes(hay[1..], needle);
      assert b ==> exists i :: OccursAt(needle, hay, i) by {
        if b {
          var j :| OccursAt(needle, hay[1..], j);
          OccursShift(needle, hay, j);
        }
      }
      assert (exists i :: OccursAt(needle, hay, i)) ==> b by {
        if exists i :: OccursAt(needle, hay, i) {
          var j :| OccursAt(needle, hay, j);
          assert j != 0;
          OccursShift(needle, hay, j - 1);
        }
      }
      b
  }

  // ---------------------------------------------------------------------------
  // split(sep)[0]

  /** `s.split(sep)[0]`: the part of `s` before the first `sep`, or all of `s` when there is none. */
  function BeforeFirst(s: string, sep: char): (r: string)
    ensures IsPrefixOf(r, s) && sep !in r
    ensures |r| == |s| || s[|r|] == sep
  {
    if s == [] || s[0] == sep then [] else [s[0]] + BeforeFirst(s[1..], sep)
  }

  /** The contract of `BeforeFirst` determines its result: any prefix with the same properties is it. */
  lemma BeforeFirstUnique(s: string, sep: char, p: string)
    requires IsPrefixOf(p, s) && sep !in p
    requires |p| == |s| || s[|p|] == sep
    ensures p == BeforeFirst(s, sep)
  {
  }

  // ---------------------------------------------------------------------------
  // digits and Number.prototype.toString

  /** The `\d` class of a JavaScript regular expression: ASCII digits only. */
  predicate IsAsciiDigit(c: char) {
    '0' <= c <= '9'
  }

  predicate IsDigits(s: string) {
    forall i :: 0 <= i < |s| ==> IsAsciiDigit(s[i])
  }

  function DigitChar(d: nat): (c: char)
    requires d < 10
    ensures IsAsciiDigit(c) && c as int - '0' as int == d
  {
    (d + '0' as int) as char
  }

  /** The number a string of decimal digits denotes. */
  function DigitsValue(s: string): nat
    requires IsDigits(s)
  {
    if s == [] then 0 else DigitsValue(s[..|s| - 1]) * 10 + (s[|s| - 1] as int - '0' as int)
  }

  /** Decimal digits with no leading zero, except for "0" itself. */
  predicate IsCanonicalDigits(s: string) {
    s != [] && IsDigits(s) && (s[0] == '0' ==> |s| == 1)
  }

  /** The decimal numeral of `n`, with no leading zero. */
  function NatToString(n: nat): (s: string)
    ensures IsCanonicalDigits(s)
    ensures s[0] == '0' ==> n == 0
    decreases n
  {
    if n < 10 then [DigitChar(n)] else NatToString(n / 10) + [DigitChar(n % 10)]
  }

  lemma {:induction false} NatToStringRoundTrip(n: nat)
    ensures DigitsValue(NatToString(n)) == n
  {
    if n >= 10 {
      NatToStringRoundTrip(n / 10);
      var s := NatToString(n);
      assert s[..|s| - 1] == NatToString(n / 10);
    }
  }

  /** Digits that do not start with a zero denote a positive number. */
  lemma {:induction false} LeadingNonZeroPositive(s: string)
    requires s != [] && IsDigits(s) && s[0] != '0'
    ensures DigitsValue(s) >= 1
  {
    if |s| > 1 {
      LeadingNonZeroPositive(s[..|s| - 1]);
    }
  }

  /** Canonical digits are the numeral `NatToString` writes for their value. */
  lemma {:induction false} CanonicalDigitsUnique(s: string)
    requires IsCanonicalDigits(s)
    ensures s == NatToString(DigitsValue(s))
  {
    if |s| > 1 {
      var p := s[..|s| - 1];
      CanonicalDigitsUnique(p);
      LeadingNonZeroPositive(p);
      var d := s[|s| - 1] as int - '0' as int;
      var v := DigitsValue(s);
      assert v == DigitsValue(p) * 10 + d;
      assert v / 10 == DigitsValue(p) && v % 10 == d;
      assert s == p + [DigitChar(d)];
    }
  }

  /** A numeral as `Number.prototype.toString` writes an integer: digits, perhaps after a minus sign. */
  predicate IsIntegerNumeral(s: string) {
    || (s != [] && IsDigits(s))
    || (|s| > 1 && s[0] == '-' && IsDigits(s[1..]))
  }

  function NumeralValue(s: string): int
    requires IsIntegerNumeral(s)
  {
    if s[0] == '-' then 0 - DigitsValue(s[1..]) else DigitsValue(s)
  }

  /**
   * The numerals `Number.prototype.toString` actually writes: no leading
   * zero, and no minus sign before zero.
   */
  predicate IsCanonicalNumeral(s: string) {
    || IsCanonicalDigits(s)
    || (|s| > 1 && s[0] == '-' && IsCanonicalDigits(s[1..]) && s[1] != '0')
  }

  /** `Number.prototype.toString` on an integer. */
  function IntToString(i: int): (s: string)
    ensures IsIntegerNumeral(s) && IsCanonicalNumeral(s)
  {
    if i < 0 then "-" + NatToString(-i) else NatToString(i)
  }

  /** Reading back the numeral `toString` writes gives the integer again. */
  lemma IntToStringRoundTrip(i: int)
    ensures NumeralValue(IntToString(i)) == i
  {
    if i < 0 {
      NatToStringRoundTrip(-i);
      assert IntToString(i)[1..] == NatToString(-i);
    } else {
      NatToStringRoundTrip(i);
    }
  }

  /**
   * A canonical numeral is the string form of its value: no other spelling
   * of a number (such as "07" or "-0") is what `toString` writes.
   */
  lemma CanonicalNumeralUnique(s: string)
    requires IsIntegerNumeral(s) && IsCanonicalNumeral(s)
    ensures s == IntToString(NumeralValue(s))
  {
    if s[0] == '-' {
      var t := s[1..];
      CanonicalDigitsUnique(t);
      LeadingNonZeroPositive(t);
      assert s == "-" + t;
    } else {
      CanonicalDigitsUnique(s);
    }
  }

  /** Distinct integers have distinct string forms. */
  lemma IntToStringInjective(a: int, b: int)
    ensures IntToString(a) == IntToString(b) ==> a == b
  {
    IntToStringRoundTrip(a);
    IntToStringRoundTrip(b);
  }

  // ---------------------------------------------------------------------------
  // charCodeAt

  const HighSurrogates: int := 0xD800
  const LowSurrogates: int := 0xDC00
  const SurrogatesEnd: int := 0xE000

  predicate IsHighSurrogate(x: int) {
    HighSurrogates <= x < LowSurrogates
  }

  predicate IsLowSurrogate(x: int) {
    LowSurrogates <= x < SurrogatesEnd
  }

  /**
   * The UTF-16 code units of one character: a character of the Basic
   * Multilingual Plane is its own single unit, which is never a surrogate;
   * any other is a high surrogate followed by a low surrogate that together
   * encode it.
   */
  function Utf16Units(c: char): (u: seq<int>)
    ensures 1 <= |u| <= 2
    ensures forall k :: 0 <= k < |u| ==> 0 <= u[k] < 0x1_0000
    ensures |u| == 1 <==> c as int < 0x1_0000
    ensures |u| == 1 ==> u[0] == c as int && !IsHighSurrogate(u[0]) && !IsLowSurrogate(u[0])
    ensures |u| == 2 ==>
      && IsHighSurrogate(u[0]) && IsLowSurrogate(u[1])
      && 0x1_0000 + (u[0] - HighSurrogates) * 0x400 + (u[1] - LowSurrogates) == c as int
  {
    var v := c as int;
    if v < 0x1_0000 then [v]
    else [0xD800 + (v - 0x1_0000) / 0x400, 0xDC00 + (v - 0x1_0000) % 0x400]
  }

  /** The values `charCodeAt(0)`, ..., `charCodeAt(length - 1)` of a JavaScript string. */
  function CodeUnits(s: string): (u: seq<int>)
    ensures |s| <= |u| <= 2 * |s|
    ensures forall k :: 0 <= k < |u| ==> 0 <= u[k] < 0x1_0000
  {
    if s == [] then [] else Utf16Units(s[0]) + CodeUnits(s[1..])
  }

  /** Reads UTF-16 code units back as characters; `None` for an unpaired surrogate. */
  function DecodeUtf16(u: seq<int>): Option<string>
    requires forall k :: 0 <= k < |u| ==> 0 <= u[k] < 0x1_0000
    decreases |u|
  {
    if u == [] then Some([])
    else if IsHighSurrogate(u[0]) then
      if |u| >= 2 && IsLowSurrogate(u[1]) then
        var v := 0x1_0000 + (u[0] - HighSurrogates) * 0x400 + (u[1] - LowSurrogates);
        match DecodeUtf16(u[2..])
        case None => None
        case Some(rest) => Some([v as char] + rest)
      else None
    else if IsLowSurrogate(u[0]) then None
    else
      match DecodeUtf16(u[1..])
      case None => None
      case Some(rest) => Some([u[0] as char] + rest)
  }

  /** The code units of a string are its UTF-16 encoding: decoding them gives the string back. */
  lemma {:induction false} CodeUnitsRoundTrip(s: string)
    ensures DecodeUtf16(CodeUnits(s)) == Some(s)
  {
    if s != [] {
      CodeUnitsRoundTrip(s[1..]);
      var head := Utf16Units(s[0]);
      var u := CodeUnits(s);
      assert u == head + CodeUnits(s[1..]);
      assert u[|head|..] == CodeUnits(s[1..]);
      assert u[0] == head[0];
      if |head| == 2 {
        assert u[1] == head[1];
      }
      assert s == [s[0]] + s[1..];
    }
  }
}
