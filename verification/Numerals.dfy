/** Numbers as digit strings, as lexical_cast and the stream manipulators write and read them. */
module Numerals {
  /** The bases in use: decimal and hexadecimal. */
  type Base = b: nat | b == 10 || b == 16 witness 10

  function DigitValue(c: char): nat {
    if '0' <= c <= '9' then (c - '0') as nat else if 'a' <= c <= 'f' then (c - 'a') as nat + 10 else 0
  }

  predicate IsDigit(c: char, base: Base) {
    '0' <= c <= '9' || (base == 16 && 'a' <= c <= 'f')
  }

  function DigitChar(d: nat): (c: char)
    requires d < 16
    ensures IsDigit(c, 16) && (d < 10 ==> IsDigit(c, 10)) && DigitValue(c) == d
  {
    if d < 10 then '0' + d as char else 'a' + (d - 10) as char
  }

  predicate AllDigits(s: string, base: Base) {
    forall i :: 0 <= i < |s| ==> IsDigit(s[i], base)
  }

  function Print(n: nat, base: Base): (s: string)
    ensures s != "" && AllDigits(s, base)
  {
    if n < base then [DigitChar(n)] else Print(n / base, base) + [DigitChar(n % base)]
  }

  function Read(s: string, base: Base): nat {
    if s == "" then 0 else Read(s[..|s| - 1], base) * base + DigitValue(s[|s| - 1])
  }

  lemma DivideBack(n: nat, base: Base)
    ensures n / base * base + n % base == n
  {
  }

  lemma {:induction false} ReadPrint(n: nat, base: Base)
    ensures Read(Print(n, base), base) == n
  {
    if n < base {
      assert Print(n, base)[..0] == "";
    } else {
      ReadPrint(n / base, base);
      assert Print(n, base)[..|Print(n, base)| - 1] == Print(n / base, base);
      DivideBack(n, base);
    }
  }
}
