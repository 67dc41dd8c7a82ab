/**
 * Decimal numerals as produced by a JavaScript template literal `${n}` for an
 * integer-valued number, with the parse back to the value it denotes.
 */
module Decimal {

  predicate IsDigit(c: char) {
    '0' <= c <= '9'
  }

  predicate AllDigits(s: string) {
    forall i :: 0 <= i < |s| ==> IsDigit(s[i])
  }

  function DigitChar(d: nat): (c: char)
    requires d < 10
    ensures IsDigit(c) && (c as int) - ('0' as int) == d
  {
    ('0' as int + d) as char
  }

  /** The value a string of digits denotes. */
  function Value(s: string): nat
    requires AllDigits(s)
    decreases |s|
  {
    if s == [] then 0
    else Value(s[..|s| - 1]) * 10 + ((s[|s| - 1] as int) - ('0' as int))
  }

  /** The numeral of `n`: digits only, never empty, no leading zero. */
  function NatToString(n: nat): (s: string)
    ensures s != [] && AllDigits(s)
    ensures |s| > 1 ==> s[0] != '0'
    decreases n
  {
    if n < 10 then [DigitChar(n)]
    else
      var t := NatToString(n / 10);
      t + [DigitChar(n % 10)]
  }

  /** `${i}` for an integer: a minus sign before the numeral of a negative value. */
  function IntToString(i: int): (s: string)
    ensures s != []
    ensures forall k :: 0 <= k < |s| ==> IsDigit(s[k]) || s[k] == '-'
  {
    if i < 0 then "-" + NatToString(-i) else NatToString(i)
  }

  /**
   * The printed integer denotes it: a non-negative value prints as its numeral,
   * a negative one as a leading minus sign followed by the numeral of its magnitude.
   */
  lemma IntToStringDenotes(i: int)
    ensures i >= 0 ==> AllDigits(IntToString(i)) && Value(IntToString(i)) == i
    ensures i < 0 ==> IntToString(i)[0] == '-' && AllDigits(IntToString(i)[1..])
                      && Value(IntToString(i)[1..]) == -i
  {
    if i >= 0 {
      ValueOfNatToString(i);
    } else {
      ValueOfNatToString(-i);
      assert IntToString(i)[1..] == NatToString(-i);
    }
  }

  /** The numeral denotes the number it was printed from. */
  lemma {:induction false} ValueOfNatToString(n: nat)
    ensures Value(NatToString(n)) == n
    decreases n
  {
    var s := NatToString(n);
    if n >= 10 {
      ValueOfNatToString(n / 10);
      assert s[..|s| - 1] == NatToString(n / 10);
    }
  }

  lemma {:induction false} ValuePositive(s: string)
    requires AllDigits(s) && s != [] && s[0] != '0'
    ensures Value(s) >= 1
    decreases |s|
  {
    if |s| > 1 {
      ValuePositive(s[..|s| - 1]);
    }
  }

  /** Every canonical numeral is the printed form of its value. */
  lemma {:induction false} NatToStringOfValue(s: string)
    requires s != [] && AllDigits(s)
    requires |s| > 1 ==> s[0] != '0'
    ensures NatToString(Value(s)) == s
    decreases |s|
  {
    var d := (s[|s| - 1] as int) - ('0' as int);
    if |s| == 1 {
      assert Value(s) == d;
      assert NatToString(d) == [DigitChar(d)];
      assert DigitChar(d) == s[0];
    } else {
      var t := s[..|s| - 1];
      NatToStringOfValue(t);
      ValuePositive(t);
      var v := Value(s);
      assert v == Value(t) * 10 + d;
      assert v / 10 == Value(t) && v % 10 == d;
      assert DigitChar(d) == s[|s| - 1];
      assert s == t + [s[|s| - 1]];
    }
  }

  /** The number of digits a string starts with. */
  function LeadingDigits(s: string): (n: nat)
    ensures n <= |s| && AllDigits(s[..n]) && (n < |s| ==> !IsDigit(s[n]))
  {
    if s == [] || !IsDigit(s[0]) then 0 else 1 + LeadingDigits(s[1..])
  }

  /** A numeral followed by a non-digit can be read back off the front of the string. */
  lemma {:induction false} LeadingDigitsOf(numeral: string, rest: string)
    requires AllDigits(numeral) && rest != [] && !IsDigit(rest[0])
    ensures LeadingDigits(numeral + rest) == |numeral|
    decreases |numeral|
  {
    if numeral != [] {
      assert (numeral + rest)[1..] == numeral[1..] + rest;
      LeadingDigitsOf(numeral[1..], rest);
    } else {
      assert numeral + rest == rest;
    }
  }
}
