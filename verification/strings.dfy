/**
 String operations the client relies on: `Number.prototype.toString()` for integers,
 `Array.prototype.join`, `String.prototype.trim` and `startsWith`. Strings are
 sequences of characters.
 */
module Strings {

  predicate IsDigit(c: char) {
    '0' <= c <= '9'
  }

  function DigitChar(d: nat): (c: char)
    requires d < 10
    ensures IsDigit(c)
  {
    ('0' as int + d) as char
  }

  function DigitValue(c: char): (d: nat)
    requires IsDigit(c)
    ensures d < 10
  {
    c as int - '0' as int
  }

  /** `n.toString()` for a non-negative integer: shortest decimal form, no sign. */
  function NatToString(n: nat): (r: string)
    ensures |r| >= 1
    ensures forall i | 0 <= i < |r| :: IsDigit(r[i])
    ensures |r| > 1 ==> r[0] != '0'
    decreases n
  {
    if n < 10 then [DigitChar(n)] else NatToString(n / 10) + [DigitChar(n % 10)]
  }

  /** `n.toString()` for any integer: a minus sign before the magnitude when negative. */
  function IntToString(n: int): (r: string)
    ensures n < 0 <==> (|r| > 0 && r[0] == '-')
  {
    if n < 0 then "-" + NatToString(-n) else NatToString(n)
  }

  /** The value of a string of decimal digits. */
  function ParseDecimal(s: string): nat
    requires forall i | 0 <= i < |s| :: IsDigit(s[i])
  {
    if |s| == 0 then 0 else ParseDecimal(s[..|s| - 1]) * 10 + DigitValue(s[|s| - 1])
  }

  /** Reading back the decimal form gives the number. */
  lemma {:induction false} ParseNatToString(n: nat)
    ensures ParseDecimal(NatToString(n)) == n
    decreases n
  {
    var r := NatToString(n);
    if n >= 10 {
      ParseNatToString(n / 10);
      assert r[..|r| - 1] == NatToString(n / 10);
      assert DigitValue(r[|r| - 1]) == n % 10;
    } else {
      assert DigitValue(r[0]) == n;
    }
  }

  /** Decimal forms of distinct numbers differ. */
  lemma NatToStringInjective(m: nat, n: nat)
    requires NatToString(m) == NatToString(n)
    ensures m == n
  {
    ParseNatToString(m);
    ParseNatToString(n);
  }

  /** Decimal forms of distinct integers differ, signs included. */
  lemma IntToStringInjective(m: int, n: int)
    requires IntToString(m) == IntToString(n)
    ensures m == n
  {
    if m < 0 && n < 0 {
      assert IntToString(m)[1..] == NatToString(-m);
      assert IntToString(n)[1..] == NatToString(-n);
      NatToStringInjective(-m, -n);
    } else if m >= 0 && n >= 0 {
      NatToStringInjective(m, n);
    }
  }

  /** `segments.join(sep)`. */
  function Join(segments: seq<string>, sep: string): (r: string)
    ensures |segments| == 0 ==> r == ""
    ensures |segments| >= 1 ==> StartsWith(r, segments[0])
    ensures |segments| >= 2 ==> StartsWith(r, segments[0] + sep)
  {
    if |segments| == 0 then ""
    else if |segments| == 1 then segments[0]
    else segments[0] + sep + Join(segments[1..], sep)
  }

  /** Joining one more segment adds the separator and that segment at the end, whatever the length. */
  lemma {:induction false} JoinAppend(a: seq<string>, s: string, sep: string)
    requires |a| >= 1
    ensures Join(a + [s], sep) == Join(a, sep) + sep + s
  {
    if |a| == 1 {
      assert (a + [s])[1..] == [s];
    } else {
      assert (a + [s])[1..] == a[1..] + [s];
      JoinAppend(a[1..], s, sep);
    }
  }

  predicate StartsWith(s: string, prefix: string) {
    |prefix| <= |s| && s[..|prefix|] == prefix
  }

  /**
   The characters `String.prototype.trim` strips: WhiteSpace and LineTerminator of
   ECMAScript section 12.2 and 12.3 (tab, vertical tab, form feed, space, no-break
   space, byte order mark, the space separators of category Zs, line feed, carriage
   return, line separator and paragraph separator).
   */
  predicate IsJsWhitespace(c: char) {
    || c == '\t' || c == '\n' || c == '\U{B}' || c == '\U{C}' || c == '\r' || c == ' '
    || c == '\U{A0}' || c == '\U{1680}' || ('\U{2000}' <= c <= '\U{200A}')
    || c == '\U{2028}' || c == '\U{2029}' || c == '\U{202F}' || c == '\U{205F}'
    || c == '\U{3000}' || c == '\U{FEFF}'
  }

  /** Every character of `s` is whitespace. */
  predicate AllWhitespace(s: string) {
    forall i | 0 <= i < |s| :: IsJsWhitespace(s[i])
  }

  /** The number of whitespace characters at the start of `s`. */
  function LeadingWhitespace(s: string): (n: nat)
    ensures n <= |s|
    ensures AllWhitespace(s[..n])
    ensures n < |s| ==> !IsJsWhitespace(s[n])
  {
    if |s| > 0 && IsJsWhitespace(s[0]) then
      var n := 1 + LeadingWhitespace(s[1..]);
      assert forall k | 1 <= k < n :: s[k] == s[1..][..n - 1][k - 1];
      n
    else 0
  }

  /** Where the whitespace at the end of `s` begins. */
  function TrailingWhitespaceStart(s: string): (n: nat)
    ensures n <= |s|
    ensures AllWhitespace(s[n..])
    ensures n > 0 ==> !IsJsWhitespace(s[n - 1])
  {
    if |s| > 0 && IsJsWhitespace(s[|s| - 1]) then
      var n := TrailingWhitespaceStart(s[..|s| - 1]);
      assert forall k | n <= k < |s| - 1 :: s[k] == s[..|s| - 1][n..][k - n];
      n
    else |s|
  }

  /**
   `s.trim()`: the slice of `s` left after stripping whitespace at both ends. It is
   empty exactly when `s` holds only whitespace.
   */
  function Trim(s: string): (r: string)
    ensures exists i, j | 0 <= i <= j <= |s| :: r == s[i..j] && AllWhitespace(s[..i]) && AllWhitespace(s[j..])
    ensures |r| > 0 ==> !IsJsWhitespace(r[0]) && !IsJsWhitespace(r[|r| - 1])
    ensures r == "" <==> AllWhitespace(s)
  {
    var i := LeadingWhitespace(s);
    var t := s[i..];
    var j := TrailingWhitespaceStart(t);
    assert t[..j] == s[i..i + j];
    assert s[i + j..] == t[j..];
    t[..j]
  }

  /**
   Only the whitespace at the two ends is stripped: a slice of `s` with nothing but
   whitespace outside it, and no whitespace at its own ends (or empty, when `s` is all
   whitespace), is `Trim(s)`.
   */
  lemma TrimUnique(s: string, i: int, j: int)
    requires 0 <= i <= j <= |s| && AllWhitespace(s[..i]) && AllWhitespace(s[j..])
    requires i < j ==> !IsJsWhitespace(s[i]) && !IsJsWhitespace(s[j - 1])
    requires i == j ==> AllWhitespace(s)
    ensures s[i..j] == Trim(s)
  {
  }
}
