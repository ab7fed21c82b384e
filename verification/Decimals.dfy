/** Integers in decimal, as the program's text formatting prints them. */
module Decimals {
  import opened Wrappers

  function Digit(d: nat): char
    requires d < 10
  {
    "0123456789"[d]
  }

  predicate IsDigit(c: char) {
    '0' <= c <= '9'
  }

  function DigitValue(c: char): (d: nat)
    requires IsDigit(c)
    ensures d < 10
  {
    c as int - '0' as int
  }

  function Digits(n: nat): string {
    if n < 10 then [Digit(n)] else Digits(n / 10) + [Digit(n % 10)]
  }

  function Format(i: int): string {
    if i < 0 then "-" + Digits(-i) else Digits(i)
  }

  // The number that a string of digits stands for.
  function ParseDigits(s: string): Option<nat> {
    if s == "" then None
    else
      var n := |s| - 1;
      if !IsDigit(s[n]) then None
      else if n == 0 then Some(DigitValue(s[n]))
      else match ParseDigits(s[..n])
        case None => None
        case Some(high) => Some(10 * high + DigitValue(s[n]))
  }

  function Negative(n: int): Option<int> {
    Some(0 - n)
  }

  function Parse(s: string): Option<int> {
    if s != "" && s[0] == '-' then
      match ParseDigits(s[1..])
      case None => None
      case Some(n) => Negative(n)
    else
      match ParseDigits(s)
      case None => None
      case Some(n) => Some(n)
  }

  lemma {:induction false} DigitsAre(n: nat)
    ensures Digits(n) != "" && forall c :: c in Digits(n) ==> IsDigit(c)
    ensures ParseDigits(Digits(n)) == Some(n)
  {
    assert forall d: nat :: d < 10 ==> IsDigit(Digit(d)) && DigitValue(Digit(d)) == d;
    if n >= 10 {
      DigitsAre(n / 10);
      assert Digits(n)[..|Digits(n)| - 1] == Digits(n / 10);
    }
  }

  // Reading back what was printed.
  lemma ParseFormat(i: int)
    ensures Parse(Format(i)) == Some(i)
    ensures forall c :: c in Format(i) ==> IsDigit(c) || c == '-'
    ensures Format(i) != ""
  {
    if i < 0 {
      ParseNegative(-i);
    } else {
      ParsePositive(i);
    }
  }

  lemma ParsePositive(n: nat)
    ensures Parse(Digits(n)) == Some(n)
    ensures Digits(n) != "" && forall c :: c in Digits(n) ==> IsDigit(c)
  {
    DigitsAre(n);
    assert Digits(n)[0] in Digits(n);
  }

  lemma ParseNegative(n: nat)
    ensures Parse("-" + Digits(n)) == Negative(n)
    ensures forall c :: c in "-" + Digits(n) ==> IsDigit(c) || c == '-'
  {
    DigitsAre(n);
    var s := "-" + Digits(n);
    assert s[0] == '-' && s[1..] == Digits(n);
  }
}
