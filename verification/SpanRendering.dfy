/** What becomes of a text with one span in it, letter by letter: a code span, an escape, a link, an
    image, a tag, an emphasis. */
module SpanRendering {
  import opened Numerals
  import opened Placeholders
  import opened WellFormedText
  import opened Hiding
  import opened CodeSpans
  import opened Encoders
  import opened EmphasisTermination
  import opened SpanTokens
  import opened SpanPairs
  import opened TagsAndLinks
  import SpanWriting

  // ---------------------------------------------------------------- texts with placeholders

  lemma {:induction false} PlainPieces(run: string, pre: string, x: string, table: seq<Hidden>)
    requires MARK !in pre && RefsOk(Cut(x), |table|)
    ensures RefsOk(Cut(pre + x), |table|)
    ensures EncodePieces(run, Cut(pre + x), table) == EncodePieces(run + pre, Cut(x), table)
    decreases |pre|
  {
    if pre == "" {
      assert pre + x == x && run + pre == run;
    } else {
      HeadOff(pre, x);
      PlainIsLetter(pre[0], pre[1..] + x);
      PlainPieces(run + [pre[0]], pre[1..], x, table);
      HeadMoves(run, pre[0], pre[1..]);
      assert [pre[0]] + pre[1..] == pre;
    }
  }

  lemma OneWritten(e: Encoded)
    ensures SpanWriting.Written(SpanWriting.Spans([e])) == SpanWriting.OutHtml(SpanWriting.Span(e))
  {
    var os := SpanWriting.Spans([e]);
    assert os == [SpanWriting.Span(e)] && os[1..] == [];
    assert SpanWriting.Written(os) == SpanWriting.OutHtml(os[0]) + SpanWriting.Written(os[1..]);
  }

  lemma RawWritten(text: string)
    ensures SpanWriting.Written(SpanWriting.Spans(RawIf(text))) == Encode(text, TEXT)
  {
    if text != "" {
      OneWritten(Raw(text));
    } else {
      assert SpanWriting.Spans([]) == [];
    }
  }

  lemma WrittenParts(a: seq<Encoded>, b: seq<Encoded>)
    ensures SpanWriting.Written(SpanWriting.Spans(a + b)) ==
            SpanWriting.Written(SpanWriting.Spans(a)) + SpanWriting.Written(SpanWriting.Spans(b))
  {
    SpanWriting.SpansJoin(a, b);
    WrittenJoin(SpanWriting.Spans(a), SpanWriting.Spans(b));
  }

  /** A text without placeholders. */
  lemma PlainWritten(s: string, table: seq<Hidden>)
    requires MARK !in s
    ensures WellFormed(s, |table|) && RefsOk(Cut(s), |table|) && TextHtml(s, table) == Encode(s, TEXT)
  {
    PlainText(s, table);
    PlainPieces("", s, "", table);
    assert s + "" == s && "" + s == s && Cut("") == End;
    RawWritten(s);
  }

  /** A text up to its first placeholder, which stands for one token. */
  lemma ItemWritten(pre: string, ref: string, name: string, rest: string, e: Encoded, table: seq<Hidden>)
    requires MARK !in pre && IsRef(ref) && NameOk(name) && ValidRef(ref, |table|) && RefsOk(Cut(rest), |table|)
    requires EncodedOf(ref, table) == [e]
    ensures var s := pre + (Placeholder(ref, name) + rest);
      && RefsOk(Cut(s), |table|)
      && TextHtml(s, table) ==
         Encode(pre, TEXT) + (SpanWriting.OutHtml(SpanWriting.Span(e)) + TextHtml(rest, table))
  {
    var x, tail := Placeholder(ref, name) + rest, EncodePieces("", Cut(rest), table);
    PlaceholderIsItem(ref, name, rest);
    PlainPieces("", pre, x, table);
    assert "" + pre == pre;
    assert EncodePieces(pre, Cut(x), table) == RawIf(pre) + [e] + tail;
    WrittenParts(RawIf(pre) + [e], tail);
    WrittenParts(RawIf(pre), [e]);
    RawWritten(pre);
    OneWritten(e);
    Grouped(Encode(pre, TEXT), SpanWriting.OutHtml(SpanWriting.Span(e)), TextHtml(rest, table));
  }

  /** ... and one for a table entry, which is written in its place. */
  lemma EntryWritten(pre: string, n: nat, name: string, rest: string, table: seq<Hidden>)
    requires MARK !in pre && NameOk(name) && n < |table| && RefsOk(Cut(rest), |table|)
    ensures var s := pre + (NextItem(n, name) + rest);
      && RefsOk(Cut(s), |table|)
      && TextHtml(s, table) == Encode(pre, TEXT) + (SpanWriting.EntryHtml(table[n]) + TextHtml(rest, table))
  {
    var ref := Print(n, 10);
    ReadPrint(n, 10);
    assert IsDigit(ref[0], 10) && IsRef(ref);
    ItemWritten(pre, ref, name, rest, Stored(table[n]), table);
  }

  /** ... and one for an escaped character, which is written as it is. */
  lemma EscapeWritten(pre: string, c: char, rest: string, table: seq<Hidden>)
    requires MARK !in pre && c in "\\`*_{}[]()#+-.!>" && RefsOk(Cut(rest), |table|)
    ensures var s := pre + (EscapedItem(EscapeIndex(c)) + rest);
      && RefsOk(Cut(s), |table|)
      && TextHtml(s, table) == Encode(pre, TEXT) + ([c] + TextHtml(rest, table))
  {
    var ref := "#" + Print(EscapeIndex(c), 10);
    EscapedRef(c, table);
    assert ref[1..] == Print(EscapeIndex(c), 10);
    ReadPrint(EscapeIndex(c), 10);
    ItemWritten(pre, ref, "escaped", rest, Escaped(c), table);
  }

  // ---------------------------------------------------------------- whole texts

  /** The HTML of a source text. */
  ghost function PageHtml(m: Matchers, find: string -> RunHit, s: string): string
    requires m.Valid() && FindsRuns(find) && MARK !in s && Ends(Tokenize(find, HideAll(m, s).text))
  {
    ItemsAlwaysExist(m, s);
    Rendered(find, HideAll(m, s).text, HideAll(m, s).items)
  }

  /** No tag, no code and no backslash in the text. */
  predicate NothingHidden(m: Matchers, s: string) {
    m.tag(s).NoPiece? && m.double(s).NoSpan? && m.single(s).NoSpan? && '\\' !in s
  }

  lemma NoEscapes(s: string)
    requires '\\' !in s
    ensures HideEscapes(s) == s
  {
    EscapesSkip(s, "");
    assert s + "" == s;
  }

  /** Nothing is hidden in front of the link pass. */
  lemma UpToLinks(m: Matchers, s: string)
    requires m.Valid() && MARK !in s && NothingHidden(m, s)
    ensures HideBeforeLinks(m, s) == Hidings(s, [])
  {
    NoEscapes(s);
    PlainText(s, []);
  }

  /** A hidden text without markers. */
  lemma WithoutRuns(m: Matchers, find: string -> RunHit, s: string, t: string, table: seq<Hidden>)
    requires m.Valid() && FindsRuns(find) && MARK !in s && HideAll(m, s) == Hidings(t, table) && find(t).NoRun?
    ensures Ends(Tokenize(find, t)) && RefsOk(Cut(t), |table|) && PageHtml(m, find, s) == TextHtml(t, table)
  {
    ItemsAlwaysExist(m, s);
    NoRuns(find, t, table);
  }

  lemma WithoutLinks(m: Matchers, s: string)
    requires m.Valid() && MARK !in s && m.link(HideBeforeLinks(m, s).text).NoLink?
    ensures HideAll(m, s) == HideBeforeLinks(m, s)
  {
    HiddenBeforeLinks(m, s);
  }

  /** A hidden text with one placeholder. */
  lemma OneItemRendered(m: Matchers, find: string -> RunHit, s: string, pre: string, name: string, rest: string,
                        table: seq<Hidden>)
    requires m.Valid() && FindsRuns(find) && MARK !in s && MARK !in pre && MARK !in rest
    requires NameOk(name) && table != []
    requires HideAll(m, s) == Hidings(pre + (NextItem(0, name) + rest), table)
    requires find(pre + (NextItem(0, name) + rest)).NoRun?
    ensures Ends(Tokenize(find, HideAll(m, s).text))
    ensures PageHtml(m, find, s) == Encode(pre, TEXT) + (SpanWriting.EntryHtml(table[0]) + Encode(rest, TEXT))
  {
    WithoutRuns(m, find, s, pre + (NextItem(0, name) + rest), table);
    PlainWritten(rest, table);
    EntryWritten(pre, 0, name, rest, table);
  }

  /** A text in which nothing is found is written encoded, and decoding gives it back if and only if no
      ampersand that the encoder leaves alone begins an entity. */
  lemma PlainTextRendered(m: Matchers, find: string -> RunHit, s: string)
    requires m.Valid() && FindsRuns(find) && MARK !in s && NothingHidden(m, s)
    requires m.link(s).NoLink? && find(s).NoRun?
    ensures Ends(Tokenize(find, HideAll(m, s).text)) && PageHtml(m, find, s) == Encode(s, TEXT)
    ensures Decode(PageHtml(m, find, s)) == s <==> Keeps(s, TEXT)
  {
    UpToLinks(m, s);
    WithoutLinks(m, s);
    WithoutRuns(m, find, s, s, []);
    PlainWritten(s, []);
    EncodedComesBack(s, TEXT);
  }

  /** A text with one emphasis in it. */
  lemma EmphasisRendered(m: Matchers, find: string -> RunHit, s: string, h: RunHit, g: RunHit)
    requires m.Valid() && FindsRuns(find) && MARK !in s && NothingHidden(m, s) && m.link(s).NoLink?
    requires h == find(s) && h.Run? && h.open && g == find(h.rest) && g.Run? && !g.open && g.run == h.run
    requires find(g.rest).NoRun?
    ensures Ends(Tokenize(find, HideAll(m, s).text))
    ensures PageHtml(m, find, s) ==
            Encode(h.pre, TEXT) +
            (StartTag(|h.run|) + (Encode(g.pre, TEXT) + (EndTag(|h.run|) + Encode(g.rest, TEXT))))
  {
    UpToLinks(m, s);
    WithoutLinks(m, s);
    PlainWritten(s, []);
    OpenAndClose(find, s, []);
    NoRuns(find, g.rest, []);
    PlainWritten(h.pre, []);
    PlainWritten(g.pre, []);
    PlainWritten(g.rest, []);
  }

  lemma ItemHasNoEscape()
    ensures '\\' !in NextItem(0, "codeSpan")
  {
    var ref := Print(0, 10);
    assert IsDigit(ref[0], 10) && IsRef(ref);
    NoBackslashInside(ref, "codeSpan");
  }

  lemma OneCodeSpan(m: Matchers, s: string, h: CodeSpans.Span)
    requires m.Valid() && MARK !in s && '\\' !in s && m.tag(s).NoPiece? && m.double(s).NoSpan?
    requires h == m.single(s) && h.Span? && m.single(h.rest).NoSpan?
    ensures var t := h.pre + (NextItem(0, "codeSpan") + h.rest);
            HideBeforeLinks(m, s) == Hidings(t, [CodeSpan(h.inner)])
  {
    var items := [] + [CodeSpan(h.inner)];
    PlainText(s, []);
    SpanParts(Single, h, []);
    PlainText(h.inner, []);
    Grows(h.rest, [], items);
    assert HideSpans(m.single, Single, h.rest, items) == Hidings(h.rest, items);
    Grouped(h.pre, NextItem(0, "codeSpan"), h.rest);
    ItemHasNoEscape();
    NoEscapes(h.pre + (NextItem(0, "codeSpan") + h.rest));
  }

  /** A text whose only match is one span in single backticks: its contents are written encoded between
      code tags. */
  lemma CodeSpanRendered(m: Matchers, find: string -> RunHit, s: string, h: CodeSpans.Span)
    requires m.Valid() && FindsRuns(find) && MARK !in s && '\\' !in s && m.tag(s).NoPiece? && m.double(s).NoSpan?
    requires h == m.single(s) && h.Span? && m.single(h.rest).NoSpan?
    requires var t := HideBeforeLinks(m, s).text; m.link(t).NoLink? && find(t).NoRun?
    ensures Ends(Tokenize(find, HideAll(m, s).text))
    ensures PageHtml(m, find, s) ==
            Encode(h.pre, TEXT) + (("<code>" + Encode(h.inner, CODE) + "</code>") + Encode(h.rest, TEXT))
  {
    OneCodeSpan(m, s, h);
    WithoutLinks(m, s);
    OneItemRendered(m, find, s, h.pre, "codeSpan", h.rest, [CodeSpan(h.inner)]);
  }

  lemma OneDoubleSpan(m: Matchers, s: string, h: CodeSpans.Span)
    requires m.Valid() && MARK !in s && '\\' !in s && m.tag(s).NoPiece?
    requires h == m.double(s) && h.Span? && m.double(h.rest).NoSpan?
    requires m.single(h.pre + (NextItem(0, "codeSpan") + h.rest)).NoSpan?
    ensures var t := h.pre + (NextItem(0, "codeSpan") + h.rest);
            HideBeforeLinks(m, s) == Hidings(t, [CodeSpan(h.inner)])
  {
    var items := [] + [CodeSpan(h.inner)];
    PlainText(s, []);
    SpanParts(Double, h, []);
    PlainText(h.inner, []);
    Grows(h.rest, [], items);
    assert HideSpans(m.double, Double, h.rest, items) == Hidings(h.rest, items);
    Grouped(h.pre, NextItem(0, "codeSpan"), h.rest);
    SpansRestore(m.double, Double, s, []);
    ItemHasNoEscape();
    NoEscapes(h.pre + (NextItem(0, "codeSpan") + h.rest));
  }

  /** The same for a span in double backticks, whose inner blanks are left out. */
  lemma DoubleSpanRendered(m: Matchers, find: string -> RunHit, s: string, h: CodeSpans.Span)
    requires m.Valid() && FindsRuns(find) && MARK !in s && '\\' !in s && m.tag(s).NoPiece?
    requires h == m.double(s) && h.Span? && m.double(h.rest).NoSpan?
    requires m.single(h.pre + (NextItem(0, "codeSpan") + h.rest)).NoSpan?
    requires var t := HideBeforeLinks(m, s).text; m.link(t).NoLink? && find(t).NoRun?
    ensures Ends(Tokenize(find, HideAll(m, s).text))
    ensures s == h.pre + ("`` " + (h.inner + (" ``" + h.rest)))
    ensures PageHtml(m, find, s) ==
            Encode(h.pre, TEXT) + (("<code>" + Encode(h.inner, CODE) + "</code>") + Encode(h.rest, TEXT))
  {
    OneDoubleSpan(m, s, h);
    WithoutLinks(m, s);
    OneItemRendered(m, find, s, h.pre, "codeSpan", h.rest, [CodeSpan(h.inner)]);
    assert "`` " == Opening(Double) && " ``" == Closing(Double);
  }

  lemma OneEscape(m: Matchers, s: string, pre: string, c: char, rest: string)
    requires m.Valid() && MARK !in s && m.tag(s).NoPiece? && m.double(s).NoSpan? && m.single(s).NoSpan?
    requires s == pre + (['\\'] + ([c] + rest)) && '\\' !in pre && '\\' !in rest && c in "\\`*_{}[]()#+-.!>"
    ensures HideBeforeLinks(m, s) == Hidings(pre + (EscapedItem(EscapeIndex(c)) + rest), [])
  {
    EscapesSkip(pre, ['\\'] + ([c] + rest));
    EscapeTwo('\\', c, rest);
    NoEscapes(rest);
    PlainText(s, []);
  }

  /** A text whose only match is one escape: the character is written as it is. */
  lemma EscapeRendered(m: Matchers, find: string -> RunHit, s: string, pre: string, c: char, rest: string)
    requires m.Valid() && FindsRuns(find) && MARK !in s
    requires m.tag(s).NoPiece? && m.double(s).NoSpan? && m.single(s).NoSpan?
    requires s == pre + (['\\'] + ([c] + rest)) && '\\' !in pre && '\\' !in rest && c in "\\`*_{}[]()#+-.!>"
    requires var t := HideBeforeLinks(m, s).text; m.link(t).NoLink? && find(t).NoRun?
    ensures Ends(Tokenize(find, HideAll(m, s).text))
    ensures PageHtml(m, find, s) == Encode(pre, TEXT) + ([c] + Encode(rest, TEXT))
  {
    var t := pre + (EscapedItem(EscapeIndex(c)) + rest);
    OneEscape(m, s, pre, c, rest);
    WithoutLinks(m, s);
    WithoutRuns(m, find, s, t, []);
    PlainWritten(rest, []);
    EscapeWritten(pre, c, rest, []);
  }

  // ---------------------------------------------------------------- links

  lemma InnerIsPlain(whole: string, inner: string)
    requires Bracketed(whole, inner) && MARK !in whole
    ensures MARK !in inner
  {
    var a: string, o: char, c: char, b: string :| Breaks(o) && Breaks(c) && whole == a + ([o] + (inner + ([c] + b)));
    assert forall x :: x in inner ==> x in whole;
  }

  lemma OneLink(m: Matchers, s: string, h: LinkHit)
    requires m.Valid() && MARK !in s && NothingHidden(m, s)
    requires h == m.link(s) && h.LinkHit? && !h.link.Anchor? && m.link(Onwards(h)).NoLink?
    ensures h.whole != "" && MARK !in h.pre && MARK !in h.whole && MARK !in Onwards(h)
    ensures h.link.Tag? ==> MARK !in h.link.contents && RefsOk(Cut(h.link.contents), 0)
    ensures HideAll(m, s) == Hidings(h.pre + (NextItem(0, "links&Images1") + Onwards(h)), Grown(h, []))
    ensures Grown(h, []) == [EntryOf(h.link, h.whole, [])]
  {
    UpToLinks(m, s);
    PlainText(s, []);
    NextReady(m.link, s, []);
    if h.link.Tag? {
      InnerIsPlain(h.whole, h.link.contents);
      PlainText(h.link.contents, []);
    }
    Grouped(h.pre, NextItem(0, "links&Images1"), Onwards(h));
    assert HideLinks(m.link, Onwards(h), Grown(h, [])) == Hidings(Onwards(h), Grown(h, []));
  }

  /** The HTML of a text with one match that leaves a single placeholder. */
  lemma OneLinkRendered(m: Matchers, find: string -> RunHit, s: string, h: LinkHit)
    requires m.Valid() && FindsRuns(find) && MARK !in s && NothingHidden(m, s)
    requires h == m.link(s) && h.LinkHit? && !h.link.Anchor? && m.link(Onwards(h)).NoLink?
    requires find(HideAll(m, s).text).NoRun?
    ensures Ends(Tokenize(find, HideAll(m, s).text)) && h.whole != ""
    ensures h.link.Tag? ==> MARK !in h.link.contents && RefsOk(Cut(h.link.contents), 0)
    ensures PageHtml(m, find, s) ==
            Encode(h.pre, TEXT) + (Original(EntryOf(h.link, h.whole, [])) + Encode(Onwards(h), TEXT))
  {
    OneLink(m, s, h);
    LinkNames();
    OneItemRendered(m, find, s, h.pre, "links&Images1", Onwards(h), Grown(h, []));
  }

  /** A bracket that resolves to nothing is written as it is, and the search goes on right behind it. */
  lemma UnresolvedRendered(m: Matchers, find: string -> RunHit, s: string, h: LinkHit)
    requires m.Valid() && FindsRuns(find) && MARK !in s && NothingHidden(m, s)
    requires h == m.link(s) && h.LinkHit? && h.link.Unresolved? && |h.whole| > 0
    requires m.link(h.whole[1..] + h.rest).NoLink? && find(HideAll(m, s).text).NoRun?
    ensures Ends(Tokenize(find, HideAll(m, s).text))
    ensures PageHtml(m, find, s) ==
            Encode(h.pre, TEXT) + (Encode(h.whole[..1], TEXT) + Encode(h.whole[1..] + h.rest, TEXT))
  {
    OneLinkRendered(m, find, s, h);
  }

  /** A match that is no tag and no address is written encoded, as a whole. */
  lemma AsIsRendered(m: Matchers, find: string -> RunHit, s: string, h: LinkHit)
    requires m.Valid() && FindsRuns(find) && MARK !in s && NothingHidden(m, s)
    requires h == m.link(s) && h.LinkHit? && h.link.AsIs?
    requires m.link(h.rest).NoLink? && find(HideAll(m, s).text).NoRun?
    ensures Ends(Tokenize(find, HideAll(m, s).text))
    ensures PageHtml(m, find, s) == Encode(h.pre, TEXT) + (Encode(h.whole, TEXT) + Encode(h.rest, TEXT))
  {
    OneLinkRendered(m, find, s, h);
  }

  /** A known tag is written between brackets, its quotation marks left as they are. */
  lemma TagRendered(m: Matchers, find: string -> RunHit, s: string, h: LinkHit)
    requires m.Valid() && FindsRuns(find) && MARK !in s && NothingHidden(m, s)
    requires h == m.link(s) && h.LinkHit? && h.link.Tag?
    requires m.link(h.rest).NoLink? && find(HideAll(m, s).text).NoRun?
    ensures Ends(Tokenize(find, HideAll(m, s).text))
    ensures PageHtml(m, find, s) ==
            Encode(h.pre, TEXT) +
            (("<" + Encode(h.link.contents, Flags(true, false, true, false)) + ">") + Encode(h.rest, TEXT))
  {
    OneLinkRendered(m, find, s, h);
    PlainText(h.link.contents, []);
  }

  /** An image is written in place of its match. */
  lemma ImageRendered(m: Matchers, find: string -> RunHit, s: string, h: LinkHit)
    requires m.Valid() && FindsRuns(find) && MARK !in s && NothingHidden(m, s)
    requires h == m.link(s) && h.LinkHit? && h.link.Image?
    requires m.link(h.rest).NoLink? && find(HideAll(m, s).text).NoRun?
    ensures Ends(Tokenize(find, HideAll(m, s).text))
    ensures PageHtml(m, find, s) ==
            Encode(h.pre, TEXT) + (ImageHtml(h.link.alt, h.link.url, h.link.title) + Encode(h.rest, TEXT))
  {
    OneLinkRendered(m, find, s, h);
  }

  /** An address in brackets becomes a link on itself. */
  lemma AddressRendered(m: Matchers, find: string -> RunHit, s: string, h: LinkHit)
    requires m.Valid() && FindsRuns(find) && MARK !in s && NothingHidden(m, s)
    requires h == m.link(s) && h.LinkHit? && h.link.AutoLink?
    requires m.link(h.rest).NoLink? && find(HideAll(m, s).text).NoRun?
    ensures Ends(Tokenize(find, HideAll(m, s).text))
    ensures PageHtml(m, find, s) ==
            Encode(h.pre, TEXT) + (AutoLinkHtml(h.link.contents, h.link.email) + Encode(h.rest, TEXT))
  {
    OneLinkRendered(m, find, s, h);
  }

  lemma OneAnchor(m: Matchers, s: string, h: LinkHit)
    requires m.Valid() && MARK !in s && NothingHidden(m, s)
    requires h == m.link(s) && h.LinkHit? && h.link.Anchor? && m.link(h.rest).NoLink?
    ensures MARK !in h.pre && MARK !in h.link.contents && MARK !in h.rest
    ensures HideAll(m, s).items == [Markup(AnchorHtml(h.link.url, h.link.title))] + [Markup("</a>")]
    ensures HideAll(m, s).text ==
            h.pre + (NextItem(0, "links&Images1") + (h.link.contents + (NextItem(1, "links&Images2") + h.rest)))
  {
    var item, item2 := NextItem(0, "links&Images1"), NextItem(1, "links&Images2");
    UpToLinks(m, s);
    PlainText(s, []);
    NextReady(m.link, s, []);
    InnerIsPlain(h.whole, h.link.contents);
    assert HideLinks(m.link, h.rest, Grown(h, [])) == Hidings(h.rest, Grown(h, []));
    Grouped(h.pre, item, h.link.contents + item2 + h.rest);
    Grouped(h.link.contents, item2, h.rest);
  }

  /** A link: its contents are written between the start tag with its address and title and the end tag. */
  lemma AnchorRendered(m: Matchers, find: string -> RunHit, s: string, h: LinkHit)
    requires m.Valid() && FindsRuns(find) && MARK !in s && NothingHidden(m, s)
    requires h == m.link(s) && h.LinkHit? && h.link.Anchor? && m.link(h.rest).NoLink?
    requires find(HideAll(m, s).text).NoRun?
    ensures Ends(Tokenize(find, HideAll(m, s).text))
    ensures PageHtml(m, find, s) ==
            Encode(h.pre, TEXT) + (AnchorHtml(h.link.url, h.link.title) +
                                   (Encode(h.link.contents, TEXT) + ("</a>" + Encode(h.rest, TEXT))))
  {
    OneAnchor(m, s, h);
    var table := HideAll(m, s).items;
    var tail := NextItem(1, "links&Images2") + h.rest;
    WithoutRuns(m, find, s, HideAll(m, s).text, table);
    LinkNames();
    PlainWritten(h.rest, table);
    EntryWritten(h.link.contents, 1, "links&Images2", h.rest, table);
    EntryWritten(h.pre, 0, "links&Images1", h.link.contents + tail, table);
  }
}
