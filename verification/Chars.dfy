/** Character classes of the C locale and decimal numerals, shared by the text scanners. */
module Chars {

  const NUL: char := '\0'

  const UPPER_CASE := "ABCDEFGHIJKLMNOPQRSTUVWXYZ"
  const LOWER_CASE := "abcdefghijklmnopqrstuvwxyz"

  predicate IsDigit(c: char) {
    '0' <= c <= '9'
  }

  predicate IsAlpha(c: char) {
    'a' <= c <= 'z' || 'A' <= c <= 'Z'
  }

  predicate IsAlnum(c: char) {
    IsAlpha(c) || IsDigit(c)
  }

  /** The letters of the alphabet are letters, and their case is changed to the other one. */
  lemma Alphabet(k: nat)
    requires k < 26
    ensures IsAlpha(UPPER_CASE[k]) && IsAlpha(LOWER_CASE[k])
    ensures LowerChar(UPPER_CASE[k]) == LOWER_CASE[k] && UpperChar(LOWER_CASE[k]) == UPPER_CASE[k]
  {
  }

  /** There are no other letters, and no other character changes. */
  lemma NoOtherLetters(c: char)
    ensures c !in UPPER_CASE ==> LowerChar(c) == c
    ensures c !in LOWER_CASE ==> UpperChar(c) == c
    ensures c !in UPPER_CASE && c !in LOWER_CASE ==> !IsAlpha(c)
  {
    if 'A' <= c <= 'Z' {
      assert UPPER_CASE[c as int - 'A' as int] == c;
    } else if 'a' <= c <= 'z' {
      assert LOWER_CASE[c as int - 'a' as int] == c;
    }
  }

  function LowerChar(c: char): char {
    if 'A' <= c <= 'Z' then (c as int - 'A' as int + 'a' as int) as char else c
  }

  function UpperChar(c: char): char {
    if 'a' <= c <= 'z' then (c as int - 'a' as int + 'A' as int) as char else c
  }

  /** isspace() in the C locale: blank, and the range from horizontal tab to carriage return. */
  predicate IsSpace(c: char) {
    c == ' ' || 9 as char <= c <= 13 as char
  }

  /** The character at an index of a NUL-terminated buffer that holds `s`. */
  function At(s: string, i: nat): char {
    if i < |s| then s[i] else NUL
  }

  function DigitValue(c: char): (d: nat)
    requires IsDigit(c)
    ensures d < 10
  {
    c as int - '0' as int
  }

  function Digit(d: nat): (c: char)
    requires d < 10
    ensures IsDigit(c) && DigitValue(c) == d
  {
    ('0' as int + d) as char
  }

  predicate Digits(s: string) {
    forall i :: 0 <= i < |s| ==> IsDigit(s[i])
  }

  /** The number a sequence of decimal digits denotes. */
  function NatValue(s: string): nat
    requires Digits(s)
  {
    if s == "" then 0 else 10 * NatValue(s[..|s| - 1]) + DigitValue(s[|s| - 1])
  }

  /** The decimal numeral of a number without leading zeros, as "%d" and "%u" print it. */
  function DecimalText(n: nat): (s: string)
    ensures |s| > 0 && Digits(s)
  {
    if n < 10 then [Digit(n)] else DecimalText(n / 10) + [Digit(n % 10)]
  }

  lemma {:induction false} DecimalTextValue(n: nat)
    ensures NatValue(DecimalText(n)) == n
  {
    if n >= 10 {
      DecimalTextValue(n / 10);
      assert DecimalText(n)[..|DecimalText(n)| - 1] == DecimalText(n / 10);
    } else {
      assert DecimalText(n)[..0] == "";
    }
  }

  /** Distinct numbers have distinct numerals. */
  lemma DecimalTextInjective(m: nat, n: nat)
    requires DecimalText(m) == DecimalText(n)
    ensures m == n
  {
    DecimalTextValue(m);
    DecimalTextValue(n);
  }
}
