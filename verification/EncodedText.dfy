/** What the encoders write, without reference to how: which characters can be left, which texts stay as
    they are, and how an address alternates between the two bases. */
module EncodedText {
  import opened Numerals
  import opened Placeholders
  import opened Encoders

  /** Raw text and code leave no bracket and no quotation mark. */
  lemma NoBracketOrQuote(s: string)
    ensures forall c :: c in Encode(s, TEXT) || c in Encode(s, CODE) ==> c != '<' && c != '>' && c != '"'
  {
    EncodedIsSafe(s, TEXT);
    EncodedIsSafe(s, CODE);
  }

  lemma FirstKeeps(s: string, f: Flags, c: char)
    requires s != "" && c != '&' && c !in "amp;ltgquo"
    requires (c == '<' || c == '>' ==> !f.angles) && (c == '"' ==> !f.quotes)
    ensures c in EncodeFirst(s, f) <==> c == s[0]
  {
  }

  /** Flags that do not ask for a character to be encoded leave it where it is. */
  lemma {:induction false} CharacterStays(s: string, f: Flags, c: char)
    requires ((c == '<' || c == '>') && !f.angles) || (c == '"' && !f.quotes)
    ensures c in Encode(s, f) <==> c in s
    decreases |s|
  {
    if s != "" {
      CharacterStays(s[1..], f, c);
      FirstKeeps(s, f, c);
    }
  }

  // ---------------------------------------------------------------- texts that stay the same

  /** Some ampersand is taken for a raw one. */
  predicate EncodesAmp(s: string) {
    s != "" && ((s[0] == '&' && !LeavesAmp(s)) || EncodesAmp(s[1..]))
  }

  /** Under flags for ampersands and brackets alone, a text stays the same if and only if it holds no
      bracket and no ampersand that is taken for a raw one; otherwise it gets longer. */
  lemma {:induction false} StaysTheSame(s: string)
    ensures var e := Encode(s, Flags(true, false, true, false));
      && |s| <= |e| && (e == s <==> |e| == |s|)
      && (e == s <==> '<' !in s && '>' !in s && !EncodesAmp(s))
    decreases |s|
  {
    if s != "" {
      var f := Flags(true, false, true, false);
      StaysTheSame(s[1..]);
      assert s == [s[0]] + s[1..];
      var first, e := EncodeFirst(s, f), Encode(s[1..], f);
      assert first == [s[0]] || |first| >= 4;
      assert first == [s[0]] ==> (first + e)[1..] == e;
    }
  }

  // ---------------------------------------------------------------- bare ampersands

  lemma {:induction false} NoLineAhead(s: string)
    requires forall i :: 0 <= i <= |s| ==> !("&amp;" <= s[i..])
    ensures !AmpersandLineAhead(s)
    decreases |s|
  {
    if s != "" {
      assert forall i :: 0 <= i <= |s[1..]| ==> s[1..][i..] == s[i + 1..];
      NoLineAhead(s[1..]);
      assert s[1..] == s[1..][0..];
    }
  }

  lemma {:induction false} NoNumberAhead(s: string)
    requires '#' !in s
    ensures !NumericAhead(s)
    decreases |s|
  {
    if s != "" {
      NoNumberAhead(s[1..]);
    }
  }

  lemma {:induction false} NothingLeft(s: string)
    requires '#' !in s && forall i :: 0 <= i <= |s| ==> !("&amp;" <= s[i..])
    ensures !LeavesBareAmp(s) && Keeps(s, TEXT)
    decreases |s|
  {
    if s != "" {
      assert forall i :: 0 <= i <= |s[1..]| ==> s[1..][i..] == s[i + 1..];
      NothingLeft(s[1..]);
      NoLineAhead(s);
      NoNumberAhead(s);
      assert s[0..] == s;
    }
  }

  /** A text without a number sign and without a written-out ampersand is kept: no ampersand is left bare,
      and decoding gives the text back. */
  lemma PlainTextIsKept(s: string)
    requires '#' !in s && forall i :: 0 <= i <= |s| ==> !("&amp;" <= s[i..])
    ensures !HasBareAmp(Encode(s, TEXT)) && Decode(Encode(s, TEXT)) == s
  {
    NothingLeft(s);
    BareAmpsLeft(s, TEXT);
    EncodedComesBack(s, TEXT);
  }

  // ---------------------------------------------------------------- numeric entities

  lemma DecimalShape(d: string, rest: string, n: nat)
    requires AllDigits(d, 10) && d != ""
    ensures var s := "&#" + (d + ([';'] + rest)); DecimalAt(s, n) <==> n == |d|
  {
    var s := "&#" + (d + ([';'] + rest));
    assert s[2 + |d|] == ';' && forall i :: 2 <= i < 2 + |d| ==> s[i] == d[i - 2];
    if n < |d| {
      assert s[2 + n] == d[n];
    }
  }

  lemma HexShape(d: string, rest: string, n: nat)
    requires AllDigits(d, 16)
    ensures var s := "&#x" + (d + ([';'] + rest)); HexAt(s, n) <==> n == |d|
  {
    var s := "&#x" + (d + ([';'] + rest));
    assert s[3 + |d|] == ';' && forall i :: 3 <= i < 3 + |d| ==> s[i] == d[i - 3];
    if n < |d| {
      assert s[3 + n] == d[n];
    }
  }

  /** A decimal entity has one to three digits, a hexadecimal one has one or two. */
  lemma EntityLengths(d: string, x: string, rest: string)
    requires AllDigits(d, 10) && d != "" && AllDigits(x, 16)
    ensures NumericAt("&#" + (d + ([';'] + rest))) <==> |d| <= 3
    ensures NumericAt("&#x" + (x + ([';'] + rest))) <==> 1 <= |x| <= 2
  {
    var s, t := "&#" + (d + ([';'] + rest)), "&#x" + (x + ([';'] + rest));
    assert s[2] == d[0] && t[2] == 'x';
    DecimalShape(d, rest, 1);
    DecimalShape(d, rest, 2);
    DecimalShape(d, rest, 3);
    HexShape(x, rest, 1);
    HexShape(x, rest, 2);
  }

  // ---------------------------------------------------------------- e-mail addresses

  lemma EmailStep(c: char, s: string, inHex: bool)
    ensures EmailEncode([c] + s, inHex) == EmailFirst(c, inHex) + EmailEncode(s, !inHex)
  {
    assert ([c] + s)[1..] == s;
  }

  /** The base behind `n` characters. */
  predicate BaseBehind(n: nat, inHex: bool) {
    if n % 2 == 1 then !inHex else inHex
  }

  lemma BaseStep(n: nat, inHex: bool)
    ensures BaseBehind(n, !inHex) == BaseBehind(n + 1, inHex)
  {
  }

  lemma {:induction false} EmailJoin(a: string, b: string, inHex: bool)
    ensures EmailEncode(a + b, inHex) == EmailEncode(a, inHex) + EmailEncode(b, BaseBehind(|a|, inHex))
    decreases |a|
  {
    if a == "" {
      assert a + b == b;
    } else {
      var c, t := a[0], a[1..];
      assert a + b == [c] + (t + b) && a == [c] + t;
      EmailStep(c, t, inHex);
      EmailStep(c, t + b, inHex);
      EmailJoin(t, b, !inHex);
      BaseStep(|t|, inHex);
      Grouped(EmailFirst(c, inHex), EmailEncode(t, !inHex), EmailEncode(b, BaseBehind(|a|, inHex)));
    }
  }

  /** Every other character of an address is written in hexadecimal, the first one in decimal; the bytes
      from 128 on stay as they are and count all the same. */
  lemma EmailAlternates(a: string, c: char, b: string)
    ensures var hex := |a| % 2 == 1;
            var piece := if c as int >= 128 then [c]
                         else if hex then "&#x" + Print(c as int, 16) + ";"
                         else "&#" + Print(c as int, 10) + ";";
            EmailEncode(a + ([c] + b), false) == EmailEncode(a, false) + (piece + EmailEncode(b, !hex))
  {
    EmailJoin(a, [c] + b, false);
    EmailStep(c, b, |a| % 2 == 1);
  }

  lemma DecimalLength(n: nat)
    requires n < 128
    ensures 1 <= |Print(n, 10)| <= 3
  {
    if n >= 10 {
      assert Print(n, 10) == Print(n / 10, 10) + [DigitChar(n % 10)];
      if n >= 100 {
        assert Print(n / 10, 10) == Print(n / 10 / 10, 10) + [DigitChar(n / 10 % 10)];
      }
    }
  }

  lemma HexLength(n: nat)
    requires n < 128
    ensures 1 <= |Print(n, 16)| <= 2
  {
    if n >= 16 {
      assert Print(n, 16) == Print(n / 16, 16) + [DigitChar(n % 16)];
    }
  }

  lemma DecimalIsNumeric(d: string, rest: string)
    requires 1 <= |d| <= 3 && AllDigits(d, 10)
    ensures NumericAt(['&'] + (['#'] + d + [';'] + rest))
  {
    var s := ['&'] + (['#'] + d + [';'] + rest);
    assert s[2 + |d|] == ';' && forall i :: 2 <= i < 2 + |d| ==> s[i] == d[i - 2];
    assert DecimalAt(s, |d|);
  }

  lemma HexIsNumeric(d: string, rest: string)
    requires 1 <= |d| <= 2 && AllDigits(d, 16)
    ensures NumericAt(['&'] + (['#', 'x'] + d + [';'] + rest))
  {
    var s := ['&'] + (['#', 'x'] + d + [';'] + rest);
    assert s[3 + |d|] == ';' && forall i :: 3 <= i < 3 + |d| ==> s[i] == d[i - 3];
    assert HexAt(s, |d|);
  }

  /** An entity that is left alone, in front of more text. */
  lemma EntityStays(body: string, rest: string, f: Flags)
    requires f.amps && Letters(body) && NumericAt(['&'] + (body + rest))
    ensures Encode((['&'] + body) + rest, f) == (['&'] + body) + Encode(rest, f)
  {
    var s := ['&'] + (body + rest);
    assert (['&'] + body) + rest == s && s[1..] == body + rest;
    assert NumericAhead(s);
    LettersPass(body, rest, f);
    Grouped(['&'], body, Encode(rest, f));
  }

  lemma EmailPieceStays(c: char, inHex: bool, rest: string, f: Flags)
    requires f.amps
    ensures Encode(EmailFirst(c, inHex) + rest, f) == EmailFirst(c, inHex) + Encode(rest, f)
  {
    if c as int >= 128 {
      assert ([c] + rest)[1..] == rest;
    } else if inHex {
      var d := Print(c as int, 16);
      HexLength(c as int);
      HexIsNumeric(d, rest);
      assert EmailFirst(c, inHex) == ['&'] + (['#', 'x'] + d + [';']);
      EntityStays(['#', 'x'] + d + [';'], rest, f);
    } else {
      var d := Print(c as int, 10);
      DecimalLength(c as int);
      DecimalIsNumeric(d, rest);
      assert EmailFirst(c, inHex) == ['&'] + (['#'] + d + [';']);
      EntityStays(['#'] + d + [';'], rest, f);
    }
  }

  /** An encoded address is not encoded again. */
  lemma {:induction false} EmailStays(s: string, inHex: bool, f: Flags)
    requires f.amps
    ensures Encode(EmailEncode(s, inHex), f) == EmailEncode(s, inHex)
    decreases |s|
  {
    if s != "" {
      EmailStays(s[1..], !inHex, f);
      EmailPieceStays(s[0], inHex, EmailEncode(s[1..], !inHex), f);
    }
  }

  lemma PrintExample()
    ensures Print(64, 10) == "64" && Print(110, 16) == "6e"
  {
    assert Print(6, 10) == "6" && Print(6, 16) == "6";
    assert Print(64, 10) == Print(64 / 10, 10) + [DigitChar(64 % 10)];
    assert Print(110, 16) == Print(110 / 16, 16) + [DigitChar(110 % 16)];
  }

  /** Two characters of an address. */
  lemma EmailExample()
    ensures EmailEncode("@n", false) == "&#64;&#x6e;"
  {
    PrintExample();
    EmailStep('@', "n", false);
    EmailStep('n', "", true);
    assert "@n" == ['@'] + "n" && "n" == ['n'] + "";
    assert '@' as int == 64 && 'n' as int == 110;
  }
}
