/** Card numbers: 15 random decimal digits followed by the Luhn check digit
    (the mod-10 "double-add-double" scheme of ISO/IEC 7812-1, Annex B). */
module CardNumbers {

  predicate IsDigit(c: char) {
    '0' <= c <= '9'
  }

  predicate AllDigits(s: string) {
    forall k :: 0 <= k < |s| ==> IsDigit(s[k])
  }

  /** Integer.parseInt of a one-character decimal string. */
  function DigitValue(c: char): (d: int)
    requires IsDigit(c)
    ensures 0 <= d <= 9
  {
    c as int - '0' as int
  }

  /** StringBuilder.append of an int in 0..9: its one decimal character. */
  function DigitChar(d: int): (c: char)
    requires 0 <= d <= 9
    ensures IsDigit(c) && DigitValue(c) == d
  {
    ('0' as int + d) as char
  }

  /** A digit's contribution to the Luhn sum: doubled when `doubled`, and a doubled value
      above 9 has 9 subtracted (the sum of its two decimal digits). */
  function LuhnTerm(d: int, doubled: bool): int {
    if !doubled then d else if 2 * d > 9 then 2 * d - 9 else 2 * d
  }

  /** The Luhn sum of `s`, counting positions from the right end: the rightmost digit is
      doubled iff `doubleRightmost`, and doubling alternates from there leftwards. */
  function LuhnSum(s: string, doubleRightmost: bool): int
    requires AllDigits(s)
  {
    if s == [] then 0
    else LuhnTerm(DigitValue(s[0]), ((|s| - 1) % 2 == 0) == doubleRightmost)
         + LuhnSum(s[1..], doubleRightmost)
  }

  /** Standard Luhn validation of a complete number: every second digit, starting with the
      one left of the check digit, is doubled, and the sum is a multiple of 10. */
  predicate LuhnValid(s: string) {
    AllDigits(s) && LuhnSum(s, false) % 10 == 0
  }

  /** Appending a digit shifts every earlier position one place from the right end: the
      payload's rightmost digit becomes the doubled one. */
  lemma {:induction false} LuhnSumAppend(payload: string, c: char)
    requires AllDigits(payload) && IsDigit(c)
    ensures AllDigits(payload + [c])
    ensures LuhnSum(payload + [c], false) == LuhnSum(payload, true) + DigitValue(c)
  {
    var s := payload + [c];
    if payload == [] {
      assert s == [c];
      assert s[1..] == [];
    } else {
      assert s[1..] == payload[1..] + [c];
      LuhnSumAppend(payload[1..], c);
    }
  }

  /** The check digit for a payload: the one in 0..9 that brings the full number's Luhn sum
      to a multiple of 10. */
  function CheckDigitFor(payload: string): (d: int)
    requires AllDigits(payload)
    ensures 0 <= d <= 9
    ensures LuhnValid(payload + [DigitChar(d)])
  {
    LuhnSumAppend(payload, DigitChar((10 - LuhnSum(payload, true) % 10) % 10));
    (10 - LuhnSum(payload, true) % 10) % 10
  }

  /** No other digit validates: a payload followed by digit `d` is Luhn-valid iff `d` is the
      check digit. */
  lemma CheckDigitUnique(payload: string, d: int)
    requires AllDigits(payload) && 0 <= d <= 9
    ensures LuhnValid(payload + [DigitChar(d)]) <==> d == CheckDigitFor(payload)
  {
    LuhnSumAppend(payload, DigitChar(d));
    LuhnSumAppend(payload, DigitChar(CheckDigitFor(payload)));
  }

  /** calculateLuhnCheckDigit: walks the payload from its last digit to its first, doubling
      every other digit starting with the last one. */
  method CalculateLuhnCheckDigit(number: string) returns (check: int)
    requires AllDigits(number)
    ensures check == CheckDigitFor(number)
    ensures 0 <= check <= 9 && LuhnValid(number + [DigitChar(check)])
  {
    var sum := 0;
    var alternate := true;
    var i := |number| - 1;
    while i >= 0
      invariant -1 <= i < |number|
      invariant alternate == ((|number| - 1 - i) % 2 == 0)
      invariant sum == LuhnSum(number[i + 1..], true)
    {
      var n := DigitValue(number[i]);
      if alternate {
        n := n * 2;
        if n > 9 {
          n := (n % 10) + 1;
        }
      }
      assert number[i..][1..] == number[i + 1..];
      sum := sum + n;
      alternate := !alternate;
      i := i - 1;
    }
    assert number[0..] == number;
    check := (10 - (sum % 10)) % 10;
  }

  /** generateCardNumber: the 15 values drawn from the random source (each in 0..9) become
      the first 15 digits, and the Luhn check digit is appended. */
  method GenerateCardNumber(draws: seq<int>) returns (number: string)
    requires |draws| == 15 && forall k :: 0 <= k < |draws| ==> 0 <= draws[k] <= 9
    ensures |number| == 16 && AllDigits(number) && LuhnValid(number)
    ensures forall k :: 0 <= k < 15 ==> DigitValue(number[k]) == draws[k]
    ensures number[15] == DigitChar(CheckDigitFor(number[..15]))
  {
    number := [];
    for i := 0 to 15
      invariant |number| == i && AllDigits(number)
      invariant forall k :: 0 <= k < i ==> DigitValue(number[k]) == draws[k]
    {
      number := number + [DigitChar(draws[i])];
    }
    var checkDigit := CalculateLuhnCheckDigit(number);
    ghost var payload := number;
    number := number + [DigitChar(checkDigit)];
    assert number[..15] == payload;
  }
}
