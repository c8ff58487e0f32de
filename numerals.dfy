/**
 * Display text typed by the user: digits with at most one decimal point.
 * `NumeralValue` is what `parseFloat` gives such a text.
 */
module Numerals {

  predicate IsDigit(c: char) {
    '0' <= c <= '9'
  }

  /** A text the entry keys can build: non-empty, starting with a digit,
      made of digits and at most one '.'. */
  predicate IsNumeral(t: string) {
    && |t| > 0
    && IsDigit(t[0])
    && (forall i :: 0 <= i < |t| ==> IsDigit(t[i]) || t[i] == '.')
    && (forall i, j :: 0 <= i < j < |t| && t[i] == '.' ==> t[j] != '.')
  }

  predicate AllDigits(s: string) {
    forall i :: 0 <= i < |s| ==> IsDigit(s[i])
  }

  function DigitValue(c: char): (n: nat)
    ensures n <= 9
  {
    if IsDigit(c) then c as int - '0' as int else 0
  }

  /** The natural number a string of digits spells in base 10. */
  function NatValue(s: string): (n: nat) {
    if s == [] then 0 else 10 * NatValue(s[..|s| - 1]) + DigitValue(s[|s| - 1])
  }

  function Pow10(n: nat): (p: nat)
    ensures p >= 1
  {
    if n == 0 then 1 else 10 * Pow10(n - 1)
  }

  /** Position of the first '.' of a text that has one. */
  function PointIndex(t: string): (k: nat)
    requires '.' in t
    ensures k < |t| && t[k] == '.'
    ensures forall i :: 0 <= i < k ==> t[i] != '.'
  {
    if t[0] == '.' then 0 else 1 + PointIndex(t[1..])
  }

  /** The value of a numeral: integer digits, plus the fraction digits scaled
      by the power of ten their count gives. */
  function NumeralValue(t: string): (v: real) {
    if '.' in t then
      var k := PointIndex(t);
      NatValue(t[..k]) as real + NatValue(t[k + 1..]) as real / Pow10(|t| - k - 1) as real
    else
      NatValue(t) as real
  }

  /** Typing a digit after an integer numeral multiplies its value by ten and adds the digit. */
  lemma NumeralValueAppendDigit(t: string, d: char)
    requires '.' !in t && IsDigit(d)
    ensures NumeralValue(t + [d]) == 10.0 * NumeralValue(t) + DigitValue(d) as real
  {
  }

  /** Typing the decimal point does not change the value of an integer numeral. */
  lemma NumeralValueAppendPoint(t: string)
    requires '.' !in t
    ensures NumeralValue(t + ".") == NumeralValue(t)
  {
  }

  /** Leading zeros do not change the number a digit string spells. */
  lemma {:induction false} NatValueLeadingZero(s: string)
    ensures NatValue(['0'] + s) == NatValue(s)
    decreases |s|
  {
    if s != [] {
      var z := ['0'] + s;
      assert z[..|z| - 1] == ['0'] + s[..|s| - 1];
      assert z[|z| - 1] == s[|s| - 1];
      NatValueLeadingZero(s[..|s| - 1]);
    }
  }
}
