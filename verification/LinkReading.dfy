/** What the stored markup of links, images and tags says, to a reader who takes it apart at its
    quotation marks. */
module LinkReading {
  import opened Wrappers
  import opened Placeholders
  import opened Encoders
  import opened EncodedText
  import opened HtmlText
  import opened TagsAndLinks

  // ---------------------------------------------------------------- reading attributes

  /** A quoted value with what stands in front of it. */
  datatype Quoted = Quoted(front: string, value: string)

  /** Reads on in front of a value; `front` is what has been read of it. */
  function Outside(s: string, front: string): seq<Quoted>
    decreases |s|
  {
    if s == "" then []
    else if s[0] == '"' then Inside(s[1..], front, "")
    else Outside(s[1..], front + [s[0]])
  }

  /** Reads on within a value. */
  function Inside(s: string, front: string, value: string): seq<Quoted>
    decreases |s|
  {
    if s == "" then []
    else if s[0] == '"' then [Quoted(front, value)] + Outside(s[1..], "")
    else Inside(s[1..], front, value + [s[0]])
  }

  /** The quoted values of a piece of HTML, in their order. */
  function Values(s: string): seq<Quoted> {
    Outside(s, "")
  }

  /** The text in front of a value names the attribute. */
  predicate Named(front: string, name: string) {
    var end := " " + name + "=";
    |end| <= |front| && front[|front| - |end|..] == end
  }

  function Lookup(vs: seq<Quoted>, name: string): Option<string> {
    if vs == [] then None
    else if Named(vs[0].front, name) then Some(vs[0].value)
    else Lookup(vs[1..], name)
  }

  /** The value of an attribute: what stands between `name="` and the next quotation mark. */
  function Value(html: string, name: string): Option<string> {
    Lookup(Values(html), name)
  }

  /** A quoted value in front of more HTML. */
  function Before(front: string, value: string, rest: string): string {
    front + (['"'] + (value + (['"'] + rest)))
  }

  lemma MoveOver(x: string, c: char, y: string)
    ensures x + ([c] + y) == (x + [c]) + y
  {
  }

  lemma {:induction false} OutsidePlain(x: string, y: string, front: string)
    requires '"' !in x
    ensures Outside(x + y, front) == Outside(y, front + x)
    decreases |x|
  {
    if x == "" {
      assert x + y == y && front + x == front;
    } else {
      assert (x + y)[0] == x[0] && (x + y)[1..] == x[1..] + y;
      OutsidePlain(x[1..], y, front + [x[0]]);
      MoveOver(front, x[0], x[1..]);
      assert [x[0]] + x[1..] == x;
    }
  }

  lemma {:induction false} InsidePlain(x: string, y: string, front: string, value: string)
    requires '"' !in x
    ensures Inside(x + y, front, value) == Inside(y, front, value + x)
    decreases |x|
  {
    if x == "" {
      assert x + y == y && value + x == value;
    } else {
      assert (x + y)[0] == x[0] && (x + y)[1..] == x[1..] + y;
      InsidePlain(x[1..], y, front, value + [x[0]]);
      MoveOver(value, x[0], x[1..]);
      assert [x[0]] + x[1..] == x;
    }
  }

  /** A value with a quotation mark in it is cut there. */
  lemma {:induction false} InsideCut(x: string, y: string, front: string, value: string)
    requires '"' in x
    ensures var vs := Inside(x + y, front, value);
            vs != [] && vs[0].front == front && |vs[0].value| < |value| + |x|
    decreases |x|
  {
    if x[0] != '"' {
      assert (x + y)[0] == x[0] && (x + y)[1..] == x[1..] + y;
      InsideCut(x[1..], y, front, value + [x[0]]);
    }
  }

  lemma AtQuote(y: string, front: string, value: string)
    ensures Outside(['"'] + y, front) == Inside(y, front, "")
    ensures Inside(['"'] + y, front, value) == [Quoted(front, value)] + Outside(y, "")
  {
    assert (['"'] + y)[1..] == y;
  }

  /** The first value of a piece of HTML is read whole if and only if it holds no quotation mark. */
  lemma FirstValue(front: string, value: string, rest: string)
    requires '"' !in front
    ensures var vs := Values(Before(front, value, rest));
      && vs != [] && vs[0].front == front
      && (vs[0].value == value <==> '"' !in value)
      && ('"' !in value ==> vs == [Quoted(front, value)] + Values(rest))
  {
    var tail := ['"'] + rest;
    OutsidePlain(front, ['"'] + (value + tail), "");
    assert "" + front == front && "" + value == value;
    AtQuote(value + tail, front, "");
    if '"' in value {
      InsideCut(value, tail, front, "");
    } else {
      InsidePlain(value, tail, front, "");
      AtQuote(rest, front, value);
    }
  }

  lemma NoValues(s: string)
    requires '"' !in s
    ensures Values(s) == []
  {
    OutsidePlain(s, "", "");
    assert s + "" == s;
  }

  lemma LookupFirst(v: Quoted, vs: seq<Quoted>, name: string)
    ensures Lookup([v] + vs, name) == if Named(v.front, name) then Some(v.value) else Lookup(vs, name)
  {
    assert ([v] + vs)[1..] == vs;
  }

  lemma IsNamed(front: string, name: string)
    ensures Named(front + (" " + name + "="), name)
  {
    var end := " " + name + "=";
    assert (front + end)[|front|..] == end;
  }

  lemma EndOfName(front: string, name: string)
    requires name != "" && Named(front, name)
    ensures front[|front| - 2] == name[|name| - 1]
  {
    var end := " " + name + "=";
    assert front[|front| - |end|..][|end| - 2] == end[|end| - 2] == name[|name| - 1];
  }

  lemma NotNamed(front: string, name: string)
    requires |front| >= 2 && name != "" && front[|front| - 2] != name[|name| - 1]
    ensures !Named(front, name)
  {
    if Named(front, name) {
      EndOfName(front, name);
    }
  }

  lemma NamesOfTitle()
    ensures Named(" title=", "title")
  {
    IsNamed("", "title");
    assert "" + (" " + "title" + "=") == " title=";
  }

  lemma NamesOfAnchor()
    ensures Named("<a href=", "href") && !Named("<a href=", "title")
  {
    IsNamed("<a", "href");
    assert "<a" + (" " + "href" + "=") == "<a href=";
    NotNamed("<a href=", "title");
  }

  lemma NamesOfSource()
    ensures Named("<img src=", "src") && !Named("<img src=", "alt") && !Named("<img src=", "title")
  {
    IsNamed("<img", "src");
    assert "<img" + (" " + "src" + "=") == "<img src=";
    NotNamed("<img src=", "alt");
    NotNamed("<img src=", "title");
  }

  lemma NamesOfAlt()
    ensures Named(" alt=", "alt") && !Named(" alt=", "title")
  {
    IsNamed("", "alt");
    assert "" + (" " + "alt" + "=") == " alt=";
    NotNamed(" alt=", "title");
  }

  // ---------------------------------------------------------------- links

  /** What stands behind the address of a link. */
  function AnchorEnd(title: string, more: string): string {
    if title == "" then ">" + more else Before(" title=", Encode(title, ADDRESS), ">" + more)
  }

  lemma AnchorIs(url: string, title: string, more: string)
    ensures AnchorHtml(url, title) + more == Before("<a href=", Encode(url, ADDRESS), AnchorEnd(title, more))
  {
    var u, t := Encode(url, ADDRESS), Encode(title, ADDRESS);
    assert "<a href=\"" == "<a href=" + ['"'] && "\"" == ['"'] && " title=\"" == " title=" + ['"'];
    if title == "" {
      AnchorText("<a href=", u, "", more);
    } else {
      AnchorText("<a href=", u, " title=" + ['"'] + t + ['"'], more);
      TitleText(" title=", t, more);
    }
  }

  lemma AnchorText(front: string, u: string, t: string, more: string)
    ensures ((front + ['"']) + u + ['"'] + t + ">") + more == front + (['"'] + (u + (['"'] + (t + (">" + more)))))
    ensures "" + (">" + more) == ">" + more
  {
  }

  lemma TitleText(front: string, t: string, more: string)
    ensures (front + ['"'] + t + ['"']) + (">" + more) == front + (['"'] + (t + (['"'] + (">" + more))))
  {
  }

  lemma OneValue(front: string, v: string, end: string)
    requires '"' !in front && '"' !in v && '"' !in end
    ensures Values(Before(front, v, end)) == [Quoted(front, v)]
  {
    FirstValue(front, v, end);
    NoValues(end);
  }

  lemma TwoValues(front: string, v: string, front2: string, v2: string, end: string)
    requires '"' !in front && '"' !in v && '"' !in front2 && '"' !in v2 && '"' !in end
    ensures Values(Before(front, v, Before(front2, v2, end))) == [Quoted(front, v)] + [Quoted(front2, v2)]
  {
    FirstValue(front, v, Before(front2, v2, end));
    OneValue(front2, v2, end);
  }

  lemma LookupAnchor(u: string, t: string)
    ensures Lookup([Quoted("<a href=", u)], "href") == Some(u) && Lookup([Quoted("<a href=", u)], "title") == None
    ensures var both := [Quoted("<a href=", u)] + [Quoted(" title=", t)];
            Lookup(both, "href") == Some(u) && Lookup(both, "title") == Some(t)
  {
    var v, w := Quoted("<a href=", u), Quoted(" title=", t);
    NamesOfAnchor();
    NamesOfTitle();
    LookupFirst(v, [], "href");
    LookupFirst(v, [], "title");
    assert [v] + [] == [v] && [w] + [] == [w];
    LookupFirst(v, [w], "href");
    LookupFirst(v, [w], "title");
    LookupFirst(w, [], "title");
  }

  lemma NoQuoteBehind(more: string)
    requires '"' !in more
    ensures '"' !in ">" + more
  {
  }

  /** A link read back, with anything without quotation marks behind it. */
  lemma AnchorValues(url: string, title: string, more: string)
    requires '"' !in more
    ensures var html := AnchorHtml(url, title) + more;
      && Value(html, "href") == Some(Encode(url, ADDRESS))
      && Value(html, "title") == if title == "" then None else Some(Encode(title, ADDRESS))
  {
    var u, t := Encode(url, ADDRESS), Encode(title, ADDRESS);
    AnchorIs(url, title, more);
    EncodedIsSafe(url, ADDRESS);
    EncodedIsSafe(title, ADDRESS);
    NoQuoteBehind(more);
    if title == "" {
      OneValue("<a href=", u, ">" + more);
    } else {
      TwoValues("<a href=", u, " title=", t, ">" + more);
    }
    LookupAnchor(u, t);
  }

  lemma AnchorBehind(url: string, title: string, more: string)
    ensures TextOf(AnchorHtml(url, title) + more) == TextOf(more)
  {
    var u, t, end := Encode(url, ADDRESS), Encode(title, ADDRESS), AnchorEnd(title, more);
    var s := AnchorHtml(url, title) + more;
    AnchorIs(url, title, more);
    EncodedIsSafe(url, ADDRESS);
    EncodedIsSafe(title, ADDRESS);
    assert s[1..] == Before("a href=", u, end);
    BehindAttribute("a href=", u, end);
    if title != "" {
      BehindAttribute(" title=", t, ">" + more);
    }
    assert (">" + more)[1..] == more;
    assert BehindTag(">" + more, false) == more;
  }

  /** The start tag of a link reads as no text, whatever its address and title hold. */
  lemma AnchorIsTag(url: string, title: string)
    ensures Reads(AnchorHtml(url, title), "")
  {
    forall more: string ensures TextOf(AnchorHtml(url, title) + more) == "" + TextOf(more) {
      AnchorBehind(url, title, more);
    }
    ReadsIf(AnchorHtml(url, title), "");
  }

  /** What the start tag of a link says: its address and title, each read back if and only if no ampersand
      that the encoder leaves alone begins an entity; a title only where there is one; angle brackets
      stand in it as they are. */
  lemma AnchorReads(url: string, title: string)
    ensures var html := AnchorHtml(url, title);
            var href, t := Value(html, "href"), Value(html, "title");
      && Reads(html, "") && href.Some?
      && (Decode(href.value) == url <==> Keeps(url, Flags(true, false, false, true)))
      && (t.Some? <==> title != "")
      && (t.Some? ==> (Decode(t.value) == title <==> Keeps(title, Flags(true, false, false, true))))
      && ('>' in href.value <==> '>' in url) && ('<' in href.value <==> '<' in url)
  {
    AnchorIsTag(url, title);
    AnchorValues(url, title, "");
    assert AnchorHtml(url, title) + "" == AnchorHtml(url, title);
    EncodedComesBack(url, ADDRESS);
    EncodedComesBack(title, ADDRESS);
    CharacterStays(url, ADDRESS, '>');
    CharacterStays(url, ADDRESS, '<');
  }

  lemma TailHasNoQuote(text: string)
    ensures '"' !in Encode(text, TEXT) + "</a>"
  {
    EncodedIsSafe(text, TEXT);
  }

  lemma EndTagReads()
    ensures Reads("</a>", "")
  {
    TagReads("/a");
    assert "<" + "/a" + ">" == "</a>";
  }

  lemma AutoLinkParts(contents: string, email: bool)
    ensures var url := if email then EmailEncode("mailto:" + contents, false) else contents;
            var text := if email then EmailEncode(contents, false) else contents;
            AutoLinkHtml(contents, email) == AnchorHtml(url, "") + (Encode(text, TEXT) + "</a>")
  {
  }

  lemma LinkAround(url: string, text: string)
    ensures var html := AnchorHtml(url, "") + (Encode(text, TEXT) + "</a>");
            Value(html, "href") == Some(Encode(url, ADDRESS)) && Reads(html, Decode(Encode(text, TEXT)))
  {
    var e, d := Encode(text, TEXT), Decode(Encode(text, TEXT));
    TailHasNoQuote(text);
    AnchorValues(url, "", e + "</a>");
    AnchorIsTag(url, "");
    EncodedReads(text, TEXT);
    EndTagReads();
    ReadsJoin(e, "</a>", d, "");
    ReadsJoin(AnchorHtml(url, ""), e + "</a>", "", d + "");
    assert "" + (d + "") == d;
  }

  /** An address in angle brackets: the link leads to it and shows it. */
  lemma AutoLinkReads(contents: string)
    ensures var html := AutoLinkHtml(contents, false);
            var href := Value(html, "href");
      && Settled(html) && href.Some?
      && (Decode(href.value) == contents <==> Keeps(contents, Flags(true, false, false, true)))
      && (TextOf(html) == contents <==> Keeps(contents, Flags(true, false, true, true)))
  {
    AutoLinkParts(contents, false);
    LinkAround(contents, contents);
    EncodedComesBack(contents, ADDRESS);
    EncodedComesBack(contents, TEXT);
  }

  lemma AutoLinkSettled(contents: string, email: bool)
    ensures Settled(AutoLinkHtml(contents, email))
  {
    AutoLinkParts(contents, email);
    LinkAround(if email then EmailEncode("mailto:" + contents, false) else contents,
               if email then EmailEncode(contents, false) else contents);
  }

  lemma MailIsBytes(contents: string)
    requires Bytes(contents)
    ensures Bytes("mailto:" + contents)
  {
    assert forall i :: 0 <= i < 7 ==> "mailto:"[i] as int < 256;
  }

  lemma {:induction false} PlainDecodes(p: string, rest: string)
    requires '&' !in p
    ensures Decode(p + rest) == p + Decode(rest)
    decreases |p|
  {
    if p == "" {
      assert p + rest == rest;
    } else {
      assert p + rest == [p[0]] + (p[1..] + rest);
      PlainDecodes(p[1..], rest);
      DecodePlain(p[0], p[1..] + rest);
      HeadOff(p, Decode(rest));
    }
  }

  lemma NumberHasNoEntity(t: string)
    requires t != "" && t[0] == '#'
    ensures Decode(['&'] + t) == ['&'] + Decode(t)
  {
    NumberHasNoName(t, "");
    assert t + "" == t;
    assert (['&'] + t)[1..] == t;
  }

  lemma ReferenceHasNoName(body: string, rest: string)
    requires body != "" && body[0] == '#' && '&' !in body
    ensures Decode((['&'] + body) + rest) == (['&'] + body) + Decode(rest)
  {
    Grouped(['&'], body, rest);
    NumberHasNoEntity(body + rest);
    PlainDecodes(body, rest);
    Grouped(['&'], body, Decode(rest));
  }

  lemma PieceHasNoName(c: char, inHex: bool, rest: string)
    ensures Decode(EmailFirst(c, inHex) + rest) == EmailFirst(c, inHex) + Decode(rest)
  {
    if c as int >= 128 {
      DecodePlain(c, rest);
    } else {
      var body := EmailFirst(c, inHex)[1..];
      assert EmailFirst(c, inHex) == ['&'] + body;
      ReferenceHasNoName(body, rest);
    }
  }

  lemma {:induction false} EmailHasNoName(s: string, inHex: bool)
    ensures Decode(EmailEncode(s, inHex)) == EmailEncode(s, inHex)
    decreases |s|
  {
    if s != "" {
      EmailHasNoName(s[1..], !inHex);
      PieceHasNoName(s[0], inHex, EmailEncode(s[1..], !inHex));
    }
  }

  /** A mail address in angle brackets: decoding its character references gives the address back in both
      places, in the link with the scheme in front of it. */
  lemma MailLinkReads(contents: string)
    requires Bytes(contents)
    ensures var html := AutoLinkHtml(contents, true);
            var href := Value(html, "href");
      && Settled(html) && href.Some?
      && DecodeNumeric(href.value) == "mailto:" + contents
      && DecodeNumeric(TextOf(html)) == contents
  {
    var url, text := EmailEncode("mailto:" + contents, false), EmailEncode(contents, false);
    AutoLinkParts(contents, true);
    LinkAround(url, text);
    EmailStays("mailto:" + contents, false, ADDRESS);
    EmailStays(contents, false, TEXT);
    EmailHasNoName(contents, false);
    MailIsBytes(contents);
    EmailRoundTrip("mailto:" + contents, false);
    EmailRoundTrip(contents, false);
  }

  // ---------------------------------------------------------------- images

  /** What stands behind the alternative text of an image. */
  function ImageEnd(title: string): string {
    if title == "" then "/>" else Before(" title=", title, "/>")
  }

  lemma ImageText(u: string, a: string, t: string)
    ensures ("<img src=" + ['"']) + u + (['"'] + " alt=" + ['"']) + a + ['"'] + t + "/>" ==
            "<img src=" + (['"'] + (u + (['"'] + (" alt=" + (['"'] + (a + (['"'] + (t + "/>"))))))))
    ensures "" + "/>" == "/>"
  {
  }

  lemma ImageTitle(t: string)
    ensures (" title=" + ['"'] + t + ['"']) + "/>" == " title=" + (['"'] + (t + (['"'] + "/>")))
  {
  }

  lemma ImageIs(alt: string, url: string, title: string)
    ensures ImageHtml(alt, url, title) == Before("<img src=", url, Before(" alt=", alt, ImageEnd(title)))
  {
    assert "<img src=\"" == "<img src=" + ['"'] && "\"" == ['"'] && "\" alt=\"" == ['"'] + " alt=" + ['"'];
    assert " title=\"" == " title=" + ['"'];
    if title == "" {
      ImageText(url, alt, "");
    } else {
      ImageText(url, alt, " title=" + ['"'] + title + ['"']);
      ImageTitle(title);
    }
  }

  lemma ImageTail(title: string)
    ensures Lookup(Values(ImageEnd(title)), "title").Some? <==> title != ""
    ensures title != "" ==> (Lookup(Values(ImageEnd(title)), "title") == Some(title) <==> '"' !in title)
  {
    NamesOfTitle();
    if title == "" {
      NoValues("/>");
    } else {
      FirstValue(" title=", title, "/>");
    }
  }

  /** What an image says. Nothing of it is encoded, so its address is read back if and only if it holds no
      quotation mark; in that case so is its alternative text, and then its title, which is there only
      if it is not empty. */
  lemma ImageReads(alt: string, url: string, title: string)
    ensures var html := ImageHtml(alt, url, title);
      && (Value(html, "src") == Some(url) <==> '"' !in url)
      && ('"' !in url ==> (Value(html, "alt") == Some(alt) <==> '"' !in alt))
      && ('"' !in url && '"' !in alt ==>
            (Value(html, "title").Some? <==> title != "") &&
            (title != "" ==> (Value(html, "title") == Some(title) <==> '"' !in title)))
  {
    var tail := Before(" alt=", alt, ImageEnd(title));
    ImageIs(alt, url, title);
    NamesOfSource();
    NamesOfAlt();
    FirstValue("<img src=", url, tail);
    FirstValue(" alt=", alt, ImageEnd(title));
    ImageTail(title);
    if '"' !in url {
      LookupFirst(Quoted("<img src=", url), Values(tail), "alt");
      LookupFirst(Quoted("<img src=", url), Values(tail), "title");
      if '"' !in alt {
        LookupFirst(Quoted(" alt=", alt), Values(ImageEnd(title)), "title");
      }
    }
  }

  lemma BeforeMore(front: string, value: string, rest: string, more: string)
    ensures Before(front, value, rest) + more == Before(front, value, rest + more)
    ensures front != "" ==>
              && Before(front, value, rest)[0] == front[0]
              && Before(front, value, rest)[1..] == Before(front[1..], value, rest)
  {
  }

  lemma BehindEnd(more: string)
    ensures BehindTag("/>" + more, false) == more
  {
    BehindPlain("/", ">" + more, false);
    assert "/" + (">" + more) == "/>" + more && (">" + more)[1..] == more;
  }

  lemma BehindImageEnd(title: string, more: string)
    requires '"' !in title
    ensures BehindTag(ImageEnd(title) + more, false) == more
  {
    BehindEnd(more);
    if title != "" {
      BeforeMore(" title=", title, "/>", more);
      BehindAttribute(" title=", title, "/>" + more);
    }
  }

  lemma ImageBehind(alt: string, url: string, title: string, more: string)
    requires '"' !in alt && '"' !in url && '"' !in title
    ensures TextOf(ImageHtml(alt, url, title) + more) == TextOf(more)
  {
    var end := ImageEnd(title) + more;
    ImageIs(alt, url, title);
    BeforeMore("<img src=", url, Before(" alt=", alt, ImageEnd(title)), more);
    BeforeMore(" alt=", alt, ImageEnd(title), more);
    BeforeMore("<img src=", url, Before(" alt=", alt, end), "");
    assert "<img src="[1..] == "img src=";
    BehindAttribute("img src=", url, Before(" alt=", alt, end));
    BehindAttribute(" alt=", alt, end);
    BehindImageEnd(title, more);
  }

  /** An image without quotation marks reads as no text. */
  lemma ImageIsTag(alt: string, url: string, title: string)
    requires '"' !in alt && '"' !in url && '"' !in title
    ensures Reads(ImageHtml(alt, url, title), "")
  {
    forall more: string ensures TextOf(ImageHtml(alt, url, title) + more) == "" + TextOf(more) {
      ImageBehind(alt, url, title, more);
    }
    ReadsIf(ImageHtml(alt, url, title), "");
  }
}
