/** What the tag passes leave of a text: which tags come out as they are, which attributes are changed,
    and that brackets which resolve to nothing stay. */
module TagReading {
  import opened Numerals
  import opened Placeholders
  import opened WellFormedText
  import opened CodeSpans
  import opened Encoders
  import opened EncodedText
  import opened HtmlText
  import opened TagsAndLinks

  // ---------------------------------------------------------------- tags

  lemma OddJoin(a: string, b: string)
    ensures OddQuotes(a + b) <==> (OddQuotes(a) != OddQuotes(b))
    decreases |a|
  {
    if a == "" {
      assert a + b == b;
    } else {
      assert (a + b)[0] == a[0] && (a + b)[1..] == a[1..] + b;
      OddJoin(a[1..], b);
    }
  }

  lemma {:induction false} NoQuotes(s: string)
    requires '"' !in s
    ensures !OddQuotes(s)
    decreases |s|
  {
    if s != "" {
      NoQuotes(s[1..]);
    }
  }

  lemma FirstQuotes(s: string, f: Flags)
    requires s != "" && !f.quotes
    ensures OddQuotes(EncodeFirst(s, f)) <==> s[0] == '"'
  {
    var first := EncodeFirst(s, f);
    if first == [s[0]] {
      assert first[1..] == "";
    } else {
      NoQuotes(first);
    }
  }

  lemma {:induction false} EncodedQuotes(s: string, f: Flags)
    requires !f.quotes
    ensures OddQuotes(Encode(s, f)) == OddQuotes(s)
    decreases |s|
  {
    if s != "" {
      EncodedQuotes(s[1..], f);
      FirstQuotes(s, f);
      OddJoin(EncodeFirst(s, f), Encode(s[1..], f));
    }
  }

  lemma SameInside(a: string, b: string)
    ensures "<" + a + ">" == "<" + b + ">" <==> a == b
  {
    assert ("<" + a + ">")[1..|a| + 1] == a && ("<" + b + ">")[1..|b| + 1] == b;
  }

  lemma TagWritten(x: string)
    ensures var html := "<" + Encode(x, Flags(true, false, true, false)) + ">";
      && (html == "<" + x + ">" <==> '<' !in x && '>' !in x && !EncodesAmp(x))
      && ('"' in html <==> '"' in x)
      && (!OddQuotes(x) ==> Reads(html, ""))
  {
    var f := Flags(true, false, true, false);
    var e := Encode(x, f);
    StaysTheSame(x);
    SameInside(e, x);
    EncodedIsSafe(x, f);
    EncodedQuotes(x, f);
    CharacterStays(x, f, '"');
    if !OddQuotes(x) {
      TagReads(e);
    }
  }

  /** A known tag with the restored text `x` between its brackets: it is written as it stands if and only
      if `x` holds no bracket and no ampersand that is taken for a raw one; its quotation marks stay; and
      it reads as no text if their number is even. */
  lemma TagStored(contents: string, whole: string, table: seq<Hidden>)
    requires whole != "" && RefsOk(Cut(contents), |table|)
    ensures var entry, x := EntryOf(Tag(contents), whole, table), Restore(contents, table);
      && entry.Markup?
      && (entry.html == "<" + x + ">" <==> '<' !in x && '>' !in x && !EncodesAmp(x))
      && ('"' in entry.html <==> '"' in x)
      && (!OddQuotes(x) ==> Reads(entry.html, ""))
  {
    TagWritten(Restore(contents, table));
  }

  // ---------------------------------------------------------------- attributes

  /** Encoding leaves every attribute string of the tag as it is. */
  predicate PlainAttributes(attribute: string -> Piece, tag: string)
    requires FindsPieces(attribute)
    decreases |tag|
  {
    var h := attribute(tag);
    h.Piece? ==>
      '<' !in h.body && '>' !in h.body && !EncodesAmp(h.body) && PlainAttributes(attribute, h.rest)
  }

  /** Encoding leaves every attribute string of every known tag as it is. */
  predicate PlainTags(tag: string -> Piece, known: string -> bool, attribute: string -> Piece, s: string)
    requires FindsPieces(tag) && FindsPieces(attribute)
    decreases |s|
  {
    var h := tag(s);
    h.Piece? ==>
      (known(h.body) ==> PlainAttributes(attribute, h.body)) && PlainTags(tag, known, attribute, h.rest)
  }

  /** Text in front, a part that got no shorter, and a rest that got no shorter. */
  lemma SameOrLonger(pre: string, x: string, y: string, a: string, b: string)
    requires |x| >= |a| && |y| >= |b| && (x == a <==> |x| == |a|) && (y == b <==> |y| == |b|)
    ensures var all, was := pre + (x + y), pre + (a + b);
            |all| >= |was| && (all == was <==> |all| == |was|) && (all == was <==> x == a && y == b)
  {
  }

  /** A tag is shown as it stands if and only if encoding changes none of its attribute strings. */
  lemma {:induction false} AttributesStay(attribute: string -> Piece, tag: string)
    requires FindsPieces(attribute)
    ensures var shown := AttributesShown(attribute, tag);
      && |shown| >= |tag| && (shown == tag <==> |shown| == |tag|)
      && (shown == tag <==> PlainAttributes(attribute, tag))
    decreases |tag|
  {
    var h := attribute(tag);
    if h.Piece? {
      var e, more := Encode(h.body, ATTRIBUTE), AttributesShown(attribute, h.rest);
      AttributesStay(attribute, h.rest);
      StaysTheSame(h.body);
      SameOrLonger(h.pre, e, more, h.body, h.rest);
      Grouped(h.pre, e, more);
    }
  }

  /** The attribute pass is invisible if and only if encoding leaves every attribute string of every known
      tag as it is: it holds no bracket and no ampersand that is taken for a raw one. Quotation marks
      are never touched, and tags that are not known are not looked into. */
  lemma {:induction false} TagsStay(tag: string -> Piece, known: string -> bool, attribute: string -> Piece, s: string)
    requires FindsPieces(tag) && FindsPieces(attribute)
    ensures var shown := TagsShown(tag, known, attribute, s);
      && |shown| >= |s| && (shown == s <==> |shown| == |s|)
      && (shown == s <==> PlainTags(tag, known, attribute, s))
    decreases |s|
  {
    var h := tag(s);
    if h.Piece? {
      var inside := if known(h.body) then AttributesShown(attribute, h.body) else h.body;
      TagsStay(tag, known, attribute, h.rest);
      AttributesStay(attribute, h.body);
      SameOrLonger(h.pre, inside, TagsShown(tag, known, attribute, h.rest), h.body, h.rest);
    }
  }

  /** Tags of unknown names are left alone, attributes and all. */
  lemma {:induction false} UnknownTagsStay(tag: string -> Piece, known: string -> bool, attribute: string -> Piece,
                                           s: string, table: seq<Hidden>)
    requires FindsPieces(tag) && FindsPieces(attribute) && forall name :: !known(name)
    ensures HideTags(tag, known, attribute, s, table) == Hidings(s, table)
    decreases |s|
  {
    var h := tag(s);
    if h.Piece? {
      UnknownTagsStay(tag, known, attribute, h.rest, table);
      Grouped(h.pre, h.body, h.rest);
    }
  }

  lemma FirstItem(name: string)
    ensures NextItem(0, name) == Placeholder("0", name)
  {
    assert Print(0, 10) == [DigitChar(0)] == "0";
  }

  lemma OneAttribute(attribute: string -> Piece, tag: string)
    requires FindsPieces(attribute) && attribute(tag).Piece? && attribute(attribute(tag).rest).NoPiece?
    ensures var a := attribute(tag);
            HideAttributes(attribute, tag, []) ==
              Hidings(a.pre + Placeholder("0", "htmlTagAttr") + a.rest, [Markup(Encode(a.body, ATTRIBUTE))])
  {
    var a := attribute(tag);
    var items := [] + [Markup(Encode(a.body, ATTRIBUTE))];
    FirstItem("htmlTagAttr");
    assert HideAttributes(attribute, a.rest, items) == Hidings(a.rest, items);
  }

  /** The one attribute of a known tag is hidden behind the placeholder of its own entry. */
  lemma KnownTagHidden(tag: string -> Piece, known: string -> bool, attribute: string -> Piece, s: string)
    requires FindsPieces(tag) && FindsPieces(attribute)
    requires tag(s).Piece? && known(tag(s).body) && tag(tag(s).rest).NoPiece?
    requires attribute(tag(s).body).Piece? && attribute(attribute(tag(s).body).rest).NoPiece?
    ensures var h, a := tag(s), attribute(tag(s).body);
            var r := HideTags(tag, known, attribute, s, []);
      && r.text == h.pre + (a.pre + Placeholder("0", "htmlTagAttr") + a.rest) + h.rest
      && |r.items| == 1 && r.items[0].Markup?
      && (Decode(r.items[0].html) == a.body <==> Keeps(a.body, Flags(true, false, true, false)))
      && ('"' in r.items[0].html <==> '"' in a.body) && '<' !in r.items[0].html && '>' !in r.items[0].html
  {
    var h, a := tag(s), attribute(tag(s).body);
    var inside := HideAttributes(attribute, h.body, []);
    OneAttribute(attribute, h.body);
    assert HideTags(tag, known, attribute, h.rest, inside.items) == Hidings(h.rest, inside.items);
    EncodedComesBack(a.body, ATTRIBUTE);
    CharacterStays(a.body, ATTRIBUTE, '"');
    EncodedIsSafe(a.body, ATTRIBUTE);
  }

  lemma EncodeStep(s: string, f: Flags)
    requires s != ""
    ensures Encode(s, f) == EncodeFirst(s, f) + Encode(s[1..], f)
  {
  }

  /** A bracket in an attribute is encoded twice: once when the attribute is hidden, and once more when
      the tag that it is restored into is stored. */
  lemma BracketTwiceEncoded()
    ensures Encode("<", Flags(true, false, true, false)) == "&lt;"
    ensures Encode("&lt;", Flags(true, false, true, false)) == "&amp;lt;"
  {
    var f := Flags(true, false, true, false);
    var s := "&lt;";
    EncodeStep("<", f);
    EncodeStep(s, f);
    assert s[1..] == "lt;";
    LettersPass("lt;", "", f);
    assert "lt;" + "" == "lt;";
    assert !("&amp;" <= s);
    assert !AmpersandLineAhead(s);
    NoNumberAhead(s);
  }

  // ---------------------------------------------------------------- brackets that resolve to nothing

  /** Every match that the link pass comes to is a bracket or an exclamation mark that resolves to
      nothing. */
  predicate OnlyBrackets(find: string -> LinkHit, s: string)
    requires FindsLinks(find)
    decreases |s|
  {
    var h := find(s);
    h.LinkHit? ==> h.link.Unresolved? && h.whole[0] != '<' && OnlyBrackets(find, Onwards(h))
  }

  lemma BracketStays(c: char)
    requires c == '[' || c == '!'
    ensures Encode([c], TEXT) == [c] && Breaks(c)
  {
    EncodeStep([c], TEXT);
  }

  lemma HitOnwards(pre: string, whole: string, rest: string)
    requires whole != ""
    ensures pre + (whole + rest) == pre + ([whole[0]] + (whole[1..] + rest)) && whole[..1] == [whole[0]]
  {
  }

  /** Brackets that resolve to nothing stay, and so does everything behind them. */
  lemma {:induction false} UnresolvedStays(find: string -> LinkHit, s: string, table: seq<Hidden>)
    requires FindsLinks(find) && WellFormed(s, |table|) && OnlyBrackets(find, s)
    ensures RefsOk(Cut(s), |table|) && LinksShown(find, s, table) == Restore(s, table)
    decreases |s|
  {
    WellFormedRefsOk(s, |table|);
    var h := find(s);
    if h.LinkHit? {
      var c := h.whole[0];
      NextReady(find, s, table);
      UnresolvedStays(find, Onwards(h), table);
      BracketStays(c);
      HitOnwards(h.pre, h.whole, h.rest);
      CutAt(h.pre, c, h.whole[1..] + h.rest, table);
      Grouped(Restore(h.pre, table), [c], Restore(Onwards(h), table));
    }
  }
}
