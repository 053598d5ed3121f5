/** The two pieces of Ruby string behaviour the backup code relies on:
    ActiveSupport's `blank?` on a site id, and the integer <-> string
    conversion that happens when an integer is stored in Redis (`to_s`)
    and read back (`String#to_i`). */
module RubyText {

  /** A character of Ruby's `[[:space:]]` class, which `String#blank?` uses. */
  predicate IsSpace(c: char) {
    c == ' ' || ('\t' <= c <= '\r') || c == '\U{85}' || c == '\U{A0}' || c == '\U{1680}'
    || ('\U{2000}' <= c <= '\U{200A}') || c == '\U{2028}' || c == '\U{2029}'
    || c == '\U{202F}' || c == '\U{205F}' || c == '\U{3000}'
  }

  /** `String#blank?`: empty or white space only. */
  predicate IsBlank(s: string) {
    forall i :: 0 <= i < |s| ==> IsSpace(s[i])
  }

  /** The white space `String#to_i` skips before the number (C `isspace`). */
  predicate IsAsciiSpace(c: char) {
    c == ' ' || ('\t' <= c <= '\r')
  }

  predicate IsDigit(c: char) {
    '0' <= c <= '9'
  }

  predicate AllDigits(s: string) {
    forall i :: 0 <= i < |s| ==> IsDigit(s[i])
  }

  function DigitChar(d: nat): (c: char)
    requires d < 10
    ensures IsDigit(c) && (c as int) - ('0' as int) == d
  {
    (('0' as int) + d) as char
  }

  /** The decimal value of a string of digits, most significant first. */
  function DigitsValue(s: string): nat
    requires AllDigits(s)
  {
    if s == [] then 0
    else DigitsValue(s[..|s| - 1]) * 10 + ((s[|s| - 1] as int) - ('0' as int))
  }

  /** `Integer#to_s` of a natural number: its decimal digits, no leading zeros. */
  function NatToString(n: nat): (s: string)
    ensures |s| > 0 && AllDigits(s)
    ensures s[0] == '0' ==> n == 0
  {
    if n < 10 then [DigitChar(n)] else NatToString(n / 10) + [DigitChar(n % 10)]
  }

  /** `Integer#to_s`: what Redis stores for an integer value. */
  function IntToString(n: int): (s: string)
    ensures |s| > 0 && (s[0] == '-' <==> n < 0)
    ensures n >= 0 ==> AllDigits(s)
    ensures n < 0 ==> AllDigits(s[1..])
  {
    if n < 0 then "-" + NatToString(-n) else NatToString(n)
  }

  /** The longest prefix of `s` made of digits. */
  function DigitPrefix(s: string): (p: string)
    ensures AllDigits(p) && p <= s
    ensures |p| == |s| || !IsDigit(s[|p|])
  {
    if s != [] && IsDigit(s[0]) then [s[0]] + DigitPrefix(s[1..]) else []
  }

  /** `s` without its leading C white space. */
  function SkipSpace(s: string): (t: string)
    ensures |t| <= |s| && t == s[|s| - |t|..]
    ensures t == [] || !IsAsciiSpace(t[0])
  {
    if s != [] && IsAsciiSpace(s[0]) then SkipSpace(s[1..]) else s
  }

  /** `String#to_i` (base 10): skip leading white space, take an optional sign
      and the longest run of digits after it; anything unparsable reads as 0. */
  function ToI(s: string): (r: int)
    ensures SkipSpace(s) == [] ==> r == 0
    ensures SkipSpace(s) != [] && !IsDigit(SkipSpace(s)[0]) && SkipSpace(s)[0] != '-' && SkipSpace(s)[0] != '+' ==> r == 0
    ensures AllDigits(s) ==> r == DigitsValue(s)
  {
    assert AllDigits(s) ==> DigitPrefix(s) == s by {
      if AllDigits(s) { DigitPrefixOfDigits(s); }
    }
    var t := SkipSpace(s);
    if t != [] && t[0] == '-' then -(DigitsValue(DigitPrefix(t[1..])) as int)
    else if t != [] && t[0] == '+' then DigitsValue(DigitPrefix(t[1..]))
    else DigitsValue(DigitPrefix(t))
  }

  lemma {:induction false} NatToStringValue(n: nat)
    ensures DigitsValue(NatToString(n)) == n
  {
    if n >= 10 {
      NatToStringValue(n / 10);
      var s := NatToString(n);
      assert s[..|s| - 1] == NatToString(n / 10);
    }
  }

  lemma {:induction false} DigitPrefixOfDigits(s: string)
    requires AllDigits(s)
    ensures DigitPrefix(s) == s
  {
    if s != [] {
      DigitPrefixOfDigits(s[1..]);
    }
  }

  /** `to_i` reads back every integer `to_s` wrote. */
  lemma IntRoundTrips()
    ensures forall n: int :: ToI(IntToString(n)) == n
  {
    forall n: int ensures ToI(IntToString(n)) == n {
      IntRoundTrip(n);
    }
  }

  /** Storing an integer in Redis and reading it back with `to_i` gives the
      same integer, negative ones included. */

  lemma IntRoundTrip(n: int)
    ensures ToI(IntToString(n)) == n
  {
    var s := IntToString(n);
    assert SkipSpace(s) == s;
    if n < 0 {
      DigitPrefixOfDigits(NatToString(-n));
      NatToStringValue(-n);
      assert s[1..] == NatToString(-n);
    } else {
      DigitPrefixOfDigits(s);
      NatToStringValue(n);
    }
  }
}
