/** Integers printed with %d. */
module Decimal {
  function Digit(d: nat): char
    requires d < 10
  {
    '0' + d as char
  }

  predicate IsDigit(c: char) { '0' <= c <= '9' }

  function DigitsOf(n: nat): (s: string)
    ensures s != ""
    ensures forall i :: 0 <= i < |s| ==> IsDigit(s[i])
    decreases n
  {
    if n < 10 then [Digit(n)] else DigitsOf(n / 10) + [Digit(n % 10)]
  }

  /** fmt.Sprintf("%d", n) */
  function Print(n: int): (s: string)
    ensures s != ""
    ensures forall i :: 0 <= i < |s| ==> IsDigit(s[i]) || s[i] == '-'
  {
    if n < 0 then "-" + DigitsOf(-n) else DigitsOf(n)
  }

  function DigitValue(c: char): nat
    requires IsDigit(c)
  {
    (c - '0') as nat
  }

  function ReadNat(s: string): nat
    requires forall i :: 0 <= i < |s| ==> IsDigit(s[i])
  {
    if s == "" then 0 else 10 * ReadNat(s[..|s| - 1]) + DigitValue(s[|s| - 1])
  }

  lemma {:induction false} ReadsBack(n: nat)
    ensures ReadNat(DigitsOf(n)) == n
    decreases n
  {
    if n >= 10 {
      ReadsBack(n / 10);
      assert DigitsOf(n)[..|DigitsOf(n)| - 1] == DigitsOf(n / 10);
    } else {
      assert DigitsOf(n)[..0] == "";
    }
  }

  predicate Numeral(s: string) {
    s != "" && forall i :: 0 <= i < |s| ==> IsDigit(s[i]) || (i == 0 && s[i] == '-')
  }

  function Read(s: string): int
    requires Numeral(s)
  {
    if s[0] == '-' then 0 - ReadNat(s[1..]) else ReadNat(s)
  }

  /** A printed number ends in its last digit and begins with what its other digits print, minus sign first. */
  lemma PrintedDigits(n: int)
    ensures Print(n)[|Print(n)| - 1] == "0123456789"[(if n < 0 then -n else n) % 10]
    ensures n >= 10 ==> Print(n)[..|Print(n)| - 1] == Print(n / 10)
    ensures 0 <= n < 10 ==> |Print(n)| == 1
    ensures n < 0 ==> Print(n) == "-" + Print(-n)
  {}

  lemma PrintReadsBack(n: int)
    ensures Numeral(Print(n)) && Read(Print(n)) == n
  {
    if n < 0 {
      ReadsBack(-n);
      assert Print(n)[1..] == DigitsOf(-n);
    } else {
      ReadsBack(n);
      assert IsDigit(Print(n)[0]);
    }
  }

  lemma PrintIsInjective(m: int, n: int)
    requires Print(m) == Print(n)
    ensures m == n
  {
    PrintReadsBack(m);
    PrintReadsBack(n);
  }
}
