/** Numbered placeholders in generated SQL text. */
module SqlText {
  import Decimal

  datatype Value = Null | Text(text: string) | Number(number: int) | Flag(flag: bool) | Instant(at: nat)

  /** A placeholder and the text between it and the one before it. */
  datatype Piece = Piece(before: string, number: nat)

  function LeadingDigits(s: string): (d: string)
    ensures |d| <= |s| && d == s[..|d|] && forall i :: 0 <= i < |d| ==> Decimal.IsDigit(d[i])
  {
    if s == "" || !Decimal.IsDigit(s[0]) then "" else [s[0]] + LeadingDigits(s[1..])
  }

  /** The placeholders of a text from left to right. */
  function Scan(s: string, before: string): seq<Piece>
    decreases |s|
  {
    if s == "" then []
    else if s[0] == '$' then
      var digits := LeadingDigits(s[1..]);
      [Piece(before, Decimal.ReadNat(digits))] + Scan(s[1 + |digits|..], "")
    else Scan(s[1..], before + [s[0]])
  }

  /** strings.Join */
  function Join(parts: seq<string>, separator: string): string {
    if parts == [] then ""
    else if |parts| == 1 then parts[0]
    else parts[0] + separator + Join(parts[1..], separator)
  }

  predicate NoDollar(s: string) {
    forall i :: 0 <= i < |s| ==> s[i] != '$'
  }

  predicate NoDigitFirst(s: string) {
    s == "" || !Decimal.IsDigit(s[0])
  }

  lemma {:induction false} LeadingDigitsStop(digits: string, rest: string)
    requires NoDigitFirst(rest) && forall i :: 0 <= i < |digits| ==> Decimal.IsDigit(digits[i])
    ensures LeadingDigits(digits + rest) == digits
    decreases |digits|
  {
    if digits == "" {
      assert digits + rest == rest;
    } else {
      assert (digits + rest)[1..] == digits[1..] + rest;
      LeadingDigitsStop(digits[1..], rest);
    }
  }

  lemma {:induction false} ScanText(text: string, rest: string, before: string)
    requires NoDollar(text)
    ensures Scan(text + rest, before) == Scan(rest, before + text)
    decreases |text|
  {
    if text == "" {
      assert text + rest == rest && before + text == before;
    } else {
      assert (text + rest)[1..] == text[1..] + rest;
      assert before + [text[0]] + text[1..] == before + text;
      ScanText(text[1..], rest, before + [text[0]]);
    }
  }

  lemma ScanPlaceholder(n: nat, rest: string, before: string)
    requires NoDigitFirst(rest)
    ensures Scan("$" + Decimal.Print(n) + rest, before) == [Piece(before, n)] + Scan(rest, "")
  {
    var digits := Decimal.Print(n);
    var s := "$" + digits + rest;
    Decimal.ReadsBack(n);
    LeadingDigitsStop(digits, rest);
    assert s[1..] == digits + rest;
    assert s[1 + |digits|..] == rest;
  }

  /** Text, then a placeholder. */
  lemma ScanNext(text: string, n: nat, rest: string, before: string)
    requires NoDollar(text) && NoDigitFirst(rest)
    ensures Scan(text + "$" + Decimal.Print(n) + rest, before) == [Piece(before + text, n)] + Scan(rest, "")
  {
    assert text + "$" + Decimal.Print(n) + rest == text + ("$" + Decimal.Print(n) + rest);
    ScanText(text, "$" + Decimal.Print(n) + rest, before);
    ScanPlaceholder(n, rest, before + text);
  }
}
