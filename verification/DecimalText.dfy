/** Decimal digit strings, as snprintf("%hu") and the number parsers of wakaama read and write them. */
module DecimalText {
  predicate IsDigit(c: char) { '0' <= c <= '9' }

  predicate AllDigits(s: string) { forall i | 0 <= i < |s| :: IsDigit(s[i]) }

  function DigitValue(c: char): nat
    requires IsDigit(c)
    ensures DigitValue(c) < 10
  {
    c as int - '0' as int
  }

  function DigitOf(n: nat): (c: char)
    requires n < 10
    ensures IsDigit(c) && DigitValue(c) == n
  {
    ('0' as int + n) as char
  }

  function Value(s: string): nat
    requires AllDigits(s)
  {
    if s == [] then 0 else Value(s[..|s| - 1]) * 10 + DigitValue(s[|s| - 1])
  }

  function ToText(n: nat): (s: string)
    ensures s != [] && AllDigits(s)
  {
    if n < 10 then [DigitOf(n)] else ToText(n / 10) + [DigitOf(n % 10)]
  }

  lemma {:induction false} ValueOfText(n: nat)
    ensures Value(ToText(n)) == n
  {
    if n < 10 {
      assert ToText(n)[..0] == [];
    } else {
      ValueOfText(n / 10);
      assert ToText(n)[..|ToText(n)| - 1] == ToText(n / 10);
    }
  }

  lemma ValueStep(s: string, i: nat)
    requires AllDigits(s) && i < |s|
    ensures AllDigits(s[..i]) && AllDigits(s[..i + 1])
    ensures Value(s[..i + 1]) == Value(s[..i]) * 10 + DigitValue(s[i])
  {
    assert s[..i + 1][..i] == s[..i];
  }
}
