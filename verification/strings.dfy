/**
 * Character and string helpers with the meaning Python gives them where the
 * source relies on it: `str.lower()` on ASCII, `str(int)`, string ordering.
 */
module Strings {

  /** An ASCII decimal digit (what `\d` matches on ASCII input). */
  predicate IsDigit(c: char) {
    '0' <= c <= '9'
  }

  predicate IsAscii(c: char) {
    c as int < 128
  }

  /** A lower-case hexadecimal digit, the alphabet of `hexdigest()`. */
  predicate IsHexDigit(c: char) {
    IsDigit(c) || 'a' <= c <= 'f'
  }

  function LowerChar(c: char): (r: char)
    ensures 'A' <= c <= 'Z' ==> 'a' <= r <= 'z'
    ensures !('A' <= c <= 'Z') ==> r == c
  {
    if 'A' <= c <= 'Z' then (c as int + 32) as char else c
  }

  /** `s.lower()` restricted to ASCII letters. */
  function Lower(s: string): (r: string)
    ensures |r| == |s|
    ensures forall i :: 0 <= i < |s| ==> r[i] == LowerChar(s[i])
  {
    if s == [] then [] else [LowerChar(s[0])] + Lower(s[1..])
  }

  /**
   * What `\d` matches in a `str` pattern: an ASCII digit, or a character
   * outside ASCII in Unicode category Nd (Arabic-Indic, Devanagari,
   * fullwidth digits and so on). Which characters are in Nd is the Unicode
   * database's business, so the caller supplies it as `nd`.
   */
  predicate DecimalChar(nd: char -> bool, c: char) {
    IsDigit(c) || (!IsAscii(c) && nd(c))
  }

  /** The characters of `s` that `\d` matches, in order, as `re.sub(r'\D', '', s)` leaves them. */
  function Digits(nd: char -> bool, s: string): (r: string)
    ensures |r| <= |s|
    ensures forall i :: 0 <= i < |r| ==> DecimalChar(nd, r[i])
    ensures forall c :: c in s && DecimalChar(nd, c) ==> c in r
    ensures forall c :: c in r ==> c in s
  {
    if s == [] then []
    else if DecimalChar(nd, s[0]) then [s[0]] + Digits(nd, s[1..])
    else Digits(nd, s[1..])
  }

  lemma {:induction false} DigitsAppend(nd: char -> bool, a: string, b: string)
    ensures Digits(nd, a + b) == Digits(nd, a) + Digits(nd, b)
  {
    if a == [] {
      assert a + b == b;
    } else {
      assert (a + b)[0] == a[0];
      assert (a + b)[1..] == a[1..] + b;
      DigitsAppend(nd, a[1..], b);
    }
  }

  /** A string none of whose characters `\d` matches has no digits. */
  lemma {:induction false} DigitsOfDigitFree(nd: char -> bool, s: string)
    requires forall i :: 0 <= i < |s| ==> !DecimalChar(nd, s[i])
    ensures Digits(nd, s) == []
  {
    if s != [] {
      DigitsOfDigitFree(nd, s[1..]);
    }
  }

  /** An ASCII string without ASCII digits has no digits, whatever `nd` says. */
  lemma AsciiDigitFree(nd: char -> bool, s: string)
    requires forall i :: 0 <= i < |s| ==> IsAscii(s[i]) && !IsDigit(s[i])
    ensures Digits(nd, s) == []
  {
    DigitsOfDigitFree(nd, s);
  }

  /** A string made only of digits is its own digit string. */
  lemma {:induction false} DigitsOfDigitsOnly(nd: char -> bool, s: string)
    requires forall i :: 0 <= i < |s| ==> DecimalChar(nd, s[i])
    ensures Digits(nd, s) == s
  {
    if s != [] {
      DigitsOfDigitsOnly(nd, s[1..]);
      assert s == [s[0]] + s[1..];
    }
  }

  function DigitChar(d: nat): (r: char)
    requires d < 10
    ensures IsDigit(r)
  {
    ('0' as int + d) as char
  }

  /** `str(n)` for a non-negative integer: decimal, no leading zeros. */
  function NatToString(n: nat): (r: string)
    ensures |r| >= 1
    ensures forall i :: 0 <= i < |r| ==> IsDigit(r[i])
    ensures n >= 10 ==> r[0] != '0'
  {
    if n < 10 then [DigitChar(n)] else NatToString(n / 10) + [DigitChar(n % 10)]
  }

  /** The value of a string of decimal digits. */
  function DecimalValue(s: string): nat
    requires forall i :: 0 <= i < |s| ==> IsDigit(s[i])
  {
    if s == [] then 0
    else
      assert IsDigit(s[|s| - 1]);
      DecimalValue(s[..|s| - 1]) * 10 + (s[|s| - 1] as int - '0' as int)
  }

  /** Reading back the decimal rendering gives the number. */
  lemma {:induction false} NatToStringRoundTrip(n: nat)
    ensures DecimalValue(NatToString(n)) == n
  {
    if n >= 10 {
      var s := NatToString(n);
      assert s[..|s| - 1] == NatToString(n / 10);
      NatToStringRoundTrip(n / 10);
    }
  }

  /** Index renderings of distinct numbers differ. */
  lemma NatToStringInjective(m: nat, n: nat)
    requires NatToString(m) == NatToString(n)
    ensures m == n
  {
    NatToStringRoundTrip(m);
    NatToStringRoundTrip(n);
  }

  /**
   * Strict lexicographic order by code point. For UTF-8 encoded strings this
   * is the byte order MongoDB uses to compare two strings.
   */
  predicate LexLess(a: string, b: string) {
    if b == [] then false
    else if a == [] then true
    else if a[0] != b[0] then a[0] < b[0]
    else LexLess(a[1..], b[1..])
  }

  lemma {:induction false} LexLessIrreflexive(a: string)
    ensures !LexLess(a, a)
  {
    if a != [] {
      LexLessIrreflexive(a[1..]);
    }
  }

  lemma {:induction false} LexLessTransitive(a: string, b: string, c: string)
    requires LexLess(a, b) && LexLess(b, c)
    ensures LexLess(a, c)
  {
    if a != [] && a[0] == b[0] && b[0] == c[0] {
      LexLessTransitive(a[1..], b[1..], c[1..]);
    }
  }

  /** Any two distinct strings are ordered one way or the other. */
  lemma {:induction false} LexLessTotal(a: string, b: string)
    requires a != b
    ensures LexLess(a, b) || LexLess(b, a)
  {
    if a != [] && b != [] && a[0] == b[0] {
      assert a == [a[0]] + a[1..];
      assert b == [b[0]] + b[1..];
      LexLessTotal(a[1..], b[1..]);
    }
  }
}
