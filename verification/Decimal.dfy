/** Decimal text of natural numbers. */
module Decimal {
  predicate Digit(c: char) { '0' <= c <= '9' }

  predicate Digits(t: string) { forall i :: 0 <= i < |t| ==> Digit(t[i]) }

  function Text(n: nat): (t: string)
    ensures t != "" && Digits(t)
  {
    if n < 10 then ['0' + n as char] else Text(n / 10) + ['0' + (n % 10) as char]
  }

  function NumberOf(t: string): nat
    requires Digits(t)
  {
    if t == "" then 0 else NumberOf(t[..|t|-1]) * 10 + (t[|t|-1] as int - '0' as int)
  }

  lemma {:induction false} NumberOfText(n: nat)
    ensures NumberOf(Text(n)) == n
  {
    if n >= 10 {
      NumberOfText(n / 10);
      var t := Text(n);
      assert t[..|t|-1] == Text(n / 10);
    }
  }
}
