/** Decimal text for integers: Python's `str(n)` for the counters and nonces the
    agents and the controller print, and `int(text)` for the port numbers they
    read back out of `host:port` arguments. */
module Numerals {

  import opened Wrappers
  import opened Text

  predicate IsDigit(c: char) {
    '0' <= c <= '9'
  }

  function DigitChar(d: nat): (c: char)
    requires d < 10
    ensures IsDigit(c)
  {
    ('0' as int + d) as char
  }

  function DigitValue(c: char): (d: nat)
    requires IsDigit(c)
    ensures d < 10 && DigitChar(d) == c
  {
    c as int - '0' as int
  }

  /** `str(n)` for `n >= 0`: decimal digits, no sign, no leading zero. */
  function NatToString(n: nat): (s: string)
    ensures |s| > 0 && AllDigits(s)
    ensures |s| > 1 ==> s[0] != '0'
  {
    if n < 10 then [DigitChar(n)] else NatToString(n / 10) + [DigitChar(n % 10)]
  }

  /** The digit part of a Python decimal integer literal: digits, with single
      underscores allowed only between two digits (`1_000`). */
  predicate IsDigitGroups(s: string) {
    && |s| > 0
    && IsDigit(s[0])
    && IsDigit(s[|s| - 1])
    && DigitsOrUnderscores(s)
    && forall i :: 0 <= i < |s| - 1 && s[i] == '_' ==> IsDigit(s[i + 1])
  }

  predicate DigitsOrUnderscores(s: string) {
    forall i :: 0 <= i < |s| ==> IsDigit(s[i]) || s[i] == '_'
  }

  predicate AllDigits(s: string) {
    forall i :: 0 <= i < |s| ==> IsDigit(s[i])
  }

  /** The number the digits of `s` spell, underscores ignored. */
  function DigitsNumber(s: string): nat
    requires DigitsOrUnderscores(s)
  {
    if |s| == 0 then 0
    else
      var init := s[..|s| - 1];
      assert DigitsOrUnderscores(init) by {
        assert forall i :: 0 <= i < |init| ==> init[i] == s[i];
      }
      if s[|s| - 1] == '_' then DigitsNumber(init)
      else 10 * DigitsNumber(init) + DigitValue(s[|s| - 1])
  }

  /** Python's `int(text)` in base 10: surrounding whitespace is ignored, an
      optional sign, then digit groups; anything else raises ValueError (`None`). */
  function ParseInt(s: string): Option<int> {
    ParseSigned(Strip(s))
  }

  /** The literal once the whitespace is gone: an optional sign, then digit groups. */
  function ParseSigned(t: string): Option<int> {
    if |t| > 0 && (t[0] == '+' || t[0] == '-') then
      var body := t[1..];
      if IsDigitGroups(body) then
        var v: int := DigitsNumber(body);
        Some(if t[0] == '-' then -v else v)
      else None
    else if IsDigitGroups(t) then Some(DigitsNumber(t))
    else None
  }

  lemma {:induction false} DigitsNumberOfNatToString(n: nat)
    ensures DigitsOrUnderscores(NatToString(n))
    ensures DigitsNumber(NatToString(n)) == n
  {
    var s := NatToString(n);
    if n >= 10 {
      DigitsNumberOfNatToString(n / 10);
      assert s[..|s| - 1] == NatToString(n / 10);
    }
  }

  /** Decimal digits are never whitespace, so a run of them is one token. */
  lemma DigitsAreWord(s: string)
    requires |s| > 0 && AllDigits(s)
    ensures IsWord(s)
  {
    assert forall i :: 0 <= i < |s| ==> '0' <= s[i] <= '9';
  }

  /** Unsigned digit text that needs no stripping reads back as its number. */
  lemma ParseIntOfDigits(s: string)
    requires |s| > 0 && AllDigits(s)
    ensures DigitsOrUnderscores(s) && ParseSigned(s) == Some(DigitsNumber(s))
  {
    assert s[0] != '+' && s[0] != '-' by {
      assert IsDigit(s[0]);
    }
    assert IsDigitGroups(s) by {
      assert forall i :: 0 <= i < |s| ==> IsDigit(s[i]);
    }
  }

  /** `int(str(n)) == n`: the controller can read back every count an agent reports. */
  lemma ParseIntOfNatToString(n: nat)
    ensures ParseInt(NatToString(n)) == Some(n)
  {
    var s := NatToString(n);
    DigitsAreWord(s);
    StripOfWord(s);
    ParseIntOfDigits(s);
    DigitsNumberOfNatToString(n);
  }

  /** `str` is injective on the naturals, so distinct counters give distinct text. */
  lemma NatToStringInjective(m: nat, n: nat)
    requires NatToString(m) == NatToString(n)
    ensures m == n
  {
    ParseIntOfNatToString(m);
    ParseIntOfNatToString(n);
  }
}
