/** Decimal numerals. */
module Decimal {

  function Digit(n: nat): char
    requires n < 10
  {
    "0123456789"[n]
  }

  function Digits(n: nat): string {
    if n < 10 then [Digit(n)] else Digits(n / 10) + [Digit(n % 10)]
  }

  predicate IsDigits(s: string) {
    forall i :: 0 <= i < |s| ==> '0' <= s[i] <= '9'
  }

  function Number(s: string): nat
    requires IsDigits(s)
  {
    if s == [] then 0 else 10 * Number(s[..|s| - 1]) + (s[|s| - 1] as int - '0' as int)
  }

  lemma {:induction false} DigitsAreReadable(n: nat)
    ensures Digits(n) != [] && IsDigits(Digits(n)) && Number(Digits(n)) == n
  {
    if n >= 10 {
      DigitsAreReadable(n / 10);
      OneMoreDigit(Digits(n / 10), n % 10);
    } else {
      OneMoreDigit([], n);
      assert [] + [Digit(n)] == [Digit(n)];
    }
  }

  lemma OneMoreDigit(s: string, d: nat)
    requires IsDigits(s) && d < 10
    ensures IsDigits(s + [Digit(d)]) && Number(s + [Digit(d)]) == 10 * Number(s) + d
  {
    var t := s + [Digit(d)];
    assert t[..|t| - 1] == s;
    assert forall i :: 0 <= i < |s| ==> t[i] == s[i];
  }

  /** A numeral without leading zeros is the one that is printed. */
  lemma {:induction false} NumeralIsUnique(s: string)
    requires IsDigits(s) && s != [] && s[0] != '0'
    ensures Number(s) >= 1 && s == Digits(Number(s))
  {
    var most, last := s[..|s| - 1], s[|s| - 1];
    var d := last as int - '0' as int;
    assert Digit(d) == last;
    if most == [] {
      assert Number(s) == d && s == [last];
    } else {
      NumeralIsUnique(most);
      assert Number(s) / 10 == Number(most) && Number(s) % 10 == d;
      assert s == most + [last];
    }
  }

  lemma {:induction false} NoLeadingZero(n: nat)
    requires n >= 1
    ensures Digits(n)[0] != '0'
  {
    DigitsAreReadable(n);
    if n >= 10 {
      DigitsAreReadable(n / 10);
      NoLeadingZero(n / 10);
    }
  }
}
