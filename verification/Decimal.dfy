/** Decimal text of natural numbers. */
module Decimal {
  import opened Common

  predicate Digit(c: char) { '0' <= c <= '9' }

  function DigitChar(d: nat): char
    requires d < 10
  {
    "0123456789"[d]
  }

  function Digits(n: nat): (s: string)
    ensures s != []
  {
    if n < 10 then [DigitChar(n)] else Digits(n / 10) + [DigitChar(n % 10)]
  }

  /** Decimal digits to a number; `None` on an empty text or another character. */
  function ParseDigits(s: string): Option<nat> {
    if s == [] then None else
    var last := s[|s| - 1];
    if !Digit(last) then None else
    var d := (last as int) - ('0' as int);
    if |s| == 1 then Some(d) else
    match ParseDigits(s[..|s| - 1])
    case None => None
    case Some(n) => Some(10 * n + d)
  }

  lemma {:induction false} DigitsBack(n: nat)
    ensures ParseDigits(Digits(n)) == Some(n)
    ensures forall i :: 0 <= i < |Digits(n)| ==> Digit(Digits(n)[i])
  {
    if n >= 10 {
      DigitsBack(n / 10);
      var s := Digits(n);
      assert s[..|s| - 1] == Digits(n / 10);
    }
  }
}
