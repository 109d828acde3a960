/** Reading HTML back: what is left of it when the tags are dropped and the entities decoded. The reader
    knows nothing of the writers, except for the names of four entities. */
module HtmlText {
  import opened Placeholders
  import opened Encoders

  /** What stands behind the tag that has begun: a quoted attribute may hold angle brackets. */
  function BehindTag(s: string, quoted: bool): (r: string)
    ensures |r| <= |s|
  {
    if s == "" then ""
    else if s[0] == '>' && !quoted then s[1..]
    else BehindTag(s[1..], if s[0] == '"' then !quoted else quoted)
  }

  /** The text of a piece of HTML. */
  function TextOf(s: string): string
    decreases |s|
  {
    if s == "" then ""
    else if s[0] == '<' then TextOf(BehindTag(s[1..], false))
    else if s[0] == '&' && EntityName(s[1..]) != "" then
      [Meant(EntityName(s[1..]))] + TextOf(s[1 + |EntityName(s[1..])|..])
    else [s[0]] + TextOf(s[1..])
  }

  /** No tag and no entity that begins in the piece ends behind it: it reads the same in any context. */
  ghost predicate Settled(html: string) {
    forall after: string :: TextOf(html + after) == TextOf(html) + TextOf(after)
  }

  /** The piece is settled and reads `text`. */
  ghost predicate Reads(html: string, text: string) {
    Settled(html) && TextOf(html) == text
  }

  lemma ReadsIf(html: string, text: string)
    requires forall after: string :: TextOf(html + after) == text + TextOf(after)
    ensures Reads(html, text)
  {
    assert html + "" == html && text + TextOf("") == text;
    assert TextOf(html + "") == text + TextOf("");
  }

  lemma ReadsAs(html: string, text: string, after: string)
    requires Reads(html, text)
    ensures TextOf(html + after) == text + TextOf(after)
  {
  }

  lemma ReadsBoth(a: string, b: string, x: string, y: string, after: string)
    requires Reads(a, x) && Reads(b, y)
    ensures TextOf((a + b) + after) == (x + y) + TextOf(after)
  {
    ReadsAs(a, x, b + after);
    ReadsAs(b, y, after);
    Grouped(a, b, after);
    Grouped(x, y, TextOf(after));
  }

  lemma ReadsJoin(a: string, b: string, x: string, y: string)
    requires Reads(a, x) && Reads(b, y)
    ensures Reads(a + b, x + y)
  {
    forall after: string ensures TextOf((a + b) + after) == (x + y) + TextOf(after) {
      ReadsBoth(a, b, x, y, after);
    }
    ReadsIf(a + b, x + y);
  }

  lemma NothingReads()
    ensures Reads("", "")
  {
    forall after: string ensures TextOf("" + after) == "" + TextOf(after) {
      assert "" + after == after;
    }
    ReadsIf("", "");
  }

  lemma CharacterReads(c: char)
    requires c != '<' && c != '&'
    ensures Reads([c], [c])
  {
    forall after: string ensures TextOf([c] + after) == [c] + TextOf(after) {
      assert ([c] + after)[1..] == after;
    }
    ReadsIf([c], [c]);
  }

  // ---------------------------------------------------------------- tags

  lemma {:induction false} BehindPlain(x: string, y: string, quoted: bool)
    requires '"' !in x && (quoted || '>' !in x)
    ensures BehindTag(x + y, quoted) == BehindTag(y, quoted)
    decreases |x|
  {
    if x == "" {
      assert x + y == y;
    } else {
      assert (x + y)[0] == x[0] && (x + y)[1..] == x[1..] + y;
      BehindPlain(x[1..], y, quoted);
    }
  }

  /** The number of quotation marks is odd. */
  predicate OddQuotes(x: string) {
    x != "" && (if x[0] == '"' then !OddQuotes(x[1..]) else OddQuotes(x[1..]))
  }

  lemma {:induction false} BehindQuotes(x: string, y: string, quoted: bool)
    requires '>' !in x
    ensures BehindTag(x + y, quoted) == BehindTag(y, if OddQuotes(x) then !quoted else quoted)
    decreases |x|
  {
    if x == "" {
      assert x + y == y;
    } else {
      assert (x + y)[0] == x[0] && (x + y)[1..] == x[1..] + y;
      BehindQuotes(x[1..], y, if x[0] == '"' then !quoted else quoted);
    }
  }

  /** A tag without a closing bracket inside and with an even number of quotation marks reads nothing. */
  lemma TagReads(inner: string)
    requires '>' !in inner && !OddQuotes(inner)
    ensures Reads("<" + inner + ">", "")
  {
    forall after: string ensures TextOf(("<" + inner + ">") + after) == "" + TextOf(after) {
      var s := ("<" + inner + ">") + after;
      assert s[1..] == inner + (">" + after);
      BehindQuotes(inner, ">" + after, false);
      assert (">" + after)[1..] == after;
    }
    ReadsIf("<" + inner + ">", "");
  }

  /** A quoted attribute in a tag, whatever angle brackets its value holds. */
  lemma BehindAttribute(name: string, value: string, y: string)
    requires '"' !in name && '>' !in name && '"' !in value
    ensures BehindTag(name + (['"'] + (value + (['"'] + y))), false) == BehindTag(y, false)
  {
    var tail := ['"'] + y;
    assert tail[1..] == y;
    BehindPlain(name, ['"'] + (value + tail), false);
    assert (['"'] + (value + tail))[1..] == value + tail;
    BehindPlain(value, tail, true);
  }

  // ---------------------------------------------------------------- encoded text

  lemma {:induction false} NoTagText(s: string)
    requires '<' !in s
    ensures TextOf(s) == Decode(s)
    decreases |s|
  {
    if s != "" {
      NoTagText(s[1..]);
      if s[0] == '&' && EntityName(s[1..]) != "" {
        NoTagText(s[1 + |EntityName(s[1..])|..]);
      }
    }
  }

  lemma EntityStep(s: string, name: string, rest: string)
    requires s != "" && s[0] == '&' && s[1..] == name + rest && name != "" && EntityName(s[1..]) == name
    ensures TextOf(s) == [Meant(name)] + TextOf(rest)
  {
    assert s[1 + |name|..] == s[1..][|name|..] == rest;
  }

  lemma EntityReads(name: string, rest: string)
    requires name != "" && EntityName(name + rest) == name
    ensures TextOf(['&'] + (name + rest)) == [Meant(name)] + TextOf(rest)
  {
    var s := ['&'] + (name + rest);
    assert s[1..] == name + rest;
    EntityStep(s, name, rest);
  }

  lemma BareReads(t: string)
    requires EntityName(t) == ""
    ensures TextOf(['&'] + t) == ['&'] + TextOf(t)
  {
    assert (['&'] + t)[1..] == t;
  }

  lemma NamesRead(rest: string)
    ensures EntityName("amp;" + rest) == "amp;" && EntityName("lt;" + rest) == "lt;"
    ensures EntityName("gt;" + rest) == "gt;" && EntityName("quot;" + rest) == "quot;"
  {
    assert ("amp;" + rest)[0] == 'a' && ("lt;" + rest)[0] == 'l';
    assert ("gt;" + rest)[0] == 'g' && ("quot;" + rest)[0] == 'q';
  }

  /** The encoding of a character that is not an ampersand left alone. */
  lemma FirstReads(s: string, f: Flags, rest: string)
    requires s != "" && f.angles && (s[0] == '&' ==> EncodeFirst(s, f) != ['&'])
    ensures TextOf(EncodeFirst(s, f) + rest) == [s[0]] + TextOf(rest)
  {
    var first := EncodeFirst(s, f);
    if first == [s[0]] {
      assert (first + rest)[1..] == rest;
    } else {
      var name := first[1..];
      assert first + rest == ['&'] + (name + rest);
      NamesRead(rest);
      EntityReads(name, rest);
    }
  }

  lemma NotAcross(p: string, x: string, y: string)
    requires '&' in x && '&' !in p
    ensures p <= x + y <==> p <= x
  {
    var all := x + y;
    var k :| 0 <= k < |x| && x[k] == '&';
    assert all[k] == '&' && forall i :: 0 <= i < |x| ==> all[i] == x[i];
    if p <= all {
      assert p == all[..|p|] && forall i :: 0 <= i < |p| ==> p[i] == all[i];
    }
  }

  /** The name of an entity never reaches over an ampersand. */
  lemma NameNotAcross(x: string, y: string)
    requires '&' in x
    ensures EntityName(x + y) == EntityName(x)
  {
    NotAcross("amp;", x, y);
    NotAcross("lt;", x, y);
    NotAcross("gt;", x, y);
    NotAcross("quot;", x, y);
  }

  lemma {:induction false} NumericHasAmp(s: string)
    requires NumericAhead(s)
    ensures '&' in s
  {
    if !NumericAt(s) {
      NumericHasAmp(s[1..]);
    }
  }

  lemma {:induction false} LineHasAmp(s: string)
    requires AmpersandLineAhead(s)
    ensures '&' in s[1..]
  {
    if LineEnd(s[0]) && "&amp;" <= s[1..] {
      assert s[1..][0] == '&';
    } else {
      LineHasAmp(s[1..]);
    }
  }

  /** What makes the encoder leave an ampersand alone stands within the text. */
  lemma ReasonIsWithin(t: string)
    requires LeavesAmp(['&'] + t)
    ensures "amp;" <= t || '&' in t || (t != "" && t[0] == '#')
  {
    var s := ['&'] + t;
    assert s[1..] == t;
    if "&amp;" <= s {
      HeadAndTail("&amp;", s);
      assert "&amp;"[1..] == "amp;";
    } else if AmpersandLineAhead(s) {
      LineHasAmp(s);
    } else if !NumericAt(s) {
      NumericHasAmp(t);
    }
  }

  lemma {:induction false} AmpIsWritten(t: string, f: Flags)
    requires '&' in t
    ensures '&' in Encode(t, f)
    decreases |t|
  {
    if t[0] != '&' {
      AmpIsWritten(t[1..], f);
    }
  }

  lemma NumberHasNoName(x: string, y: string)
    requires x != "" && x[0] == '#'
    ensures EntityName(x + y) == EntityName(x) == ""
  {
    assert (x + y)[0] == '#';
  }

  lemma AmpNameStays(x: string, y: string)
    requires "amp;" <= x
    ensures EntityName(x + y) == EntityName(x) == "amp;"
  {
    assert x <= x + y && "amp;" == (x + y)[..4];
  }

  /** An ampersand that is left alone begins the same entity, or none, whatever follows the text. */
  lemma BareIsSettled(t: string, f: Flags, after: string)
    requires LeavesAmp(['&'] + t)
    ensures EntityName(Encode(t, f) + after) == EntityName(Encode(t, f))
  {
    var e := Encode(t, f);
    ReasonIsWithin(t);
    if "amp;" <= t {
      AmpKept(t, f);
      AmpNameStays(e, after);
    } else if '&' in t {
      AmpIsWritten(t, f);
      NameNotAcross(e, after);
    } else {
      assert e[0] == '#';
      NumberHasNoName(e, after);
    }
  }

  lemma BareEntityReads(name: string, rest: string, f: Flags, after: string)
    requires name != "" && EntityName(name + Encode(rest, f)) == name
    requires EntityName((name + Encode(rest, f)) + after) == name
    ensures TextOf((['&'] + (name + Encode(rest, f))) + after) == [Meant(name)] + TextOf(Encode(rest, f) + after)
    ensures Decode(['&'] + (name + Encode(rest, f))) == [Meant(name)] + Decode(Encode(rest, f))
  {
    var e := Encode(rest, f);
    Grouped(name, e, after);
    Grouped(['&'], name + e, after);
    EntityReads(name, e + after);
    assert (['&'] + (name + e))[1..] == name + e;
    DecodeEntity(['&'] + (name + e), name, e);
  }

  /** An ampersand that is left alone, in front of the rest of its text. */
  lemma BareStep(t: string, f: Flags, after: string) returns (rest: string)
    requires LeavesAmp(['&'] + t)
    ensures |rest| <= |t|
    ensures var e := Encode(rest, f);
            TextOf(e + after) == Decode(e) + TextOf(after) ==>
              TextOf((['&'] + Encode(t, f)) + after) == Decode(['&'] + Encode(t, f)) + TextOf(after)
  {
    var e := Encode(t, f);
    var name := EntityName(e);
    BareIsSettled(t, f, after);
    NameKept(t, f);
    if name == "" {
      rest := t;
      DecodeAmpersand(e);
      Grouped(['&'], e, after);
      BareReads(e + after);
      Grouped(['&'], Decode(e), TextOf(after));
    } else {
      rest := t[|name|..];
      assert t == name + rest;
      LettersPass(name, rest, f);
      BareEntityReads(name, rest, f, after);
      Grouped([Meant(name)], Decode(Encode(rest, f)), TextOf(after));
    }
  }

  /** Encoded text reads as its decoding, whatever follows it. */
  lemma {:induction false} EncodedInFront(s: string, f: Flags, after: string)
    requires f.angles && (f.amps || f.doubleAmps)
    ensures TextOf(Encode(s, f) + after) == Decode(Encode(s, f)) + TextOf(after)
    decreases |s|
  {
    if s == "" {
      assert Encode(s, f) + after == after;
    } else if s[0] == '&' && EncodeFirst(s, f) == ['&'] {
      assert s == ['&'] + s[1..];
      var rest := BareStep(s[1..], f, after);
      EncodedInFront(rest, f, after);
    } else {
      var e := Encode(s[1..], f);
      EncodedInFront(s[1..], f, after);
      Grouped(EncodeFirst(s, f), e, after);
      FirstReads(s, f, e + after);
      DecodeFirst(s, f);
      Grouped([s[0]], Decode(e), TextOf(after));
    }
  }

  /** Encoded text is settled and reads as its decoding. */
  lemma EncodedReads(s: string, f: Flags)
    requires f.angles && (f.amps || f.doubleAmps)
    ensures Reads(Encode(s, f), Decode(Encode(s, f)))
  {
    forall after: string ensures TextOf(Encode(s, f) + after) == Decode(Encode(s, f)) + TextOf(after) {
      EncodedInFront(s, f, after);
    }
    ReadsIf(Encode(s, f), Decode(Encode(s, f)));
  }
}
