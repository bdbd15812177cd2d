/** Decimal numerals, as the settings file and the parameters of control sequences have them. */
module Numerals {

  predicate Digit(c: char) { '0' <= c <= '9' }

  /** n in decimal. */
  function Decimal(n: nat): (s: string)
    ensures s != [] && Digit(s[0])
  {
    if n < 10 then [(n + '0' as int) as char] else Decimal(n / 10) + [(n % 10 + '0' as int) as char]
  }

  predicate Digits(s: string) { forall k :: 0 <= k < |s| ==> Digit(s[k]) }

  lemma {:induction false} DecimalChars(n: nat)
    ensures Digits(Decimal(n)) && (Decimal(n)[0] == '0' ==> n == 0 && |Decimal(n)| == 1)
  {
    if n >= 10 { DecimalChars(n / 10); }
  }

  /** Digits without a leading zero are the decimal text of a number. */
  lemma {:induction false} DigitsDecimal(s: string) returns (n: nat)
    requires s != [] && Digits(s) && (s[0] == '0' ==> |s| == 1)
    ensures s == Decimal(n) && (s[0] != '0' ==> n > 0)
  {
    var last := s[|s| - 1] as int - '0' as int;
    if |s| == 1 {
      n := last;
    } else {
      var m := DigitsDecimal(s[..|s| - 1]);
      n := 10 * m + last;
      assert s == s[..|s| - 1] + [s[|s| - 1]];
    }
  }
}
