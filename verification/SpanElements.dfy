/** A text of a Markdown document all the way to its finished tokens: the hiding passes, the emphasis
    passes and the expansion of the placeholders one after the other. */
module SpanElements {
  import opened Placeholders
  import opened WellFormedText
  import opened Encoders
  import opened CodeSpans
  import opened EmphasisTokens
  import opened EmphasisMatching
  import opened EmphasisTermination
  import opened EmphasisHtml
  import opened SpanTokens
  import opened SpanWriting
  import TagsAndLinks

  // ---------------------------------------------------------------- table entries are closed

  lemma ClosedMore(table: seq<Hidden>, h: Hidden)
    requires AllClosed(table) && EntryClosed(h)
    ensures AllClosed(table + [h])
  {
  }

  lemma EncodedClosed(s: string, f: Flags)
    requires f.angles
    ensures Closed(Encode(s, f))
  {
    EncodedIsSafe(s, f);
  }

  lemma EndsClosed(s: string)
    ensures Closed(s + ">")
  {
    assert (s + ">")[|s + ">"| - 1] == '>';
  }

  lemma {:induction false} AttributesClosed(attribute: string -> TagsAndLinks.Piece, tag: string, table: seq<Hidden>)
    requires TagsAndLinks.FindsPieces(attribute) && AllClosed(table)
    ensures AllClosed(TagsAndLinks.HideAttributes(attribute, tag, table).items)
    decreases |tag|
  {
    var h := attribute(tag);
    if h.Piece? {
      var entry := Markup(Encode(h.body, TagsAndLinks.ATTRIBUTE));
      EncodedClosed(h.body, TagsAndLinks.ATTRIBUTE);
      ClosedMore(table, entry);
      AttributesClosed(attribute, h.rest, table + [entry]);
    }
  }

  lemma {:induction false} TagsClosed(tag: string -> TagsAndLinks.Piece, known: string -> bool,
                                      attribute: string -> TagsAndLinks.Piece, s: string, table: seq<Hidden>)
    requires TagsAndLinks.FindsPieces(tag) && TagsAndLinks.FindsPieces(attribute) && AllClosed(table)
    ensures AllClosed(TagsAndLinks.HideTags(tag, known, attribute, s, table).items)
    decreases |s|
  {
    var h := tag(s);
    if h.Piece? {
      AttributesClosed(attribute, h.body, table);
      var inside := if known(h.body) then TagsAndLinks.HideAttributes(attribute, h.body, table)
          else Hidings(h.body, table);
      TagsClosed(tag, known, attribute, h.rest, inside.items);
    }
  }

  lemma {:induction false} SpansClosed(find: string -> CodeSpans.Span, q: Quotes, s: string, table: seq<Hidden>)
    requires Finds(find, q) && WellFormed(s, |table|) && AllClosed(table)
    ensures AllClosed(HideSpans(find, q, s, table).items)
    decreases |s|
  {
    var h := find(s);
    if h.Span? {
      SpanParts(q, h, table);
      var entry := CodeSpan(Restore(h.inner, table));
      ClosedMore(table, entry);
      Grows(h.rest, table, table + [entry]);
      SpansClosed(find, q, h.rest, table + [entry]);
    }
  }

  lemma LastIsBracket(s: string, end: string)
    requires end != "" && end[|end| - 1] == '>'
    ensures Closed(s + end)
  {
  }

  lemma ImageClosed(alt: string, url: string, title: string)
    ensures Closed(TagsAndLinks.ImageHtml(alt, url, title))
  {
    var t := if title == "" then "" else " title=\"" + title + "\"";
    LastIsBracket("<img src=\"" + url + "\" alt=\"" + alt + "\"" + t, "/>");
  }

  lemma AnchorClosed(url: string, title: string)
    ensures Closed(TagsAndLinks.AnchorHtml(url, title))
  {
    var t := if title == "" then "" else " title=\"" + Encode(title, TagsAndLinks.ADDRESS) + "\"";
    LastIsBracket("<a href=\"" + Encode(url, TagsAndLinks.ADDRESS) + "\"" + t, ">");
  }

  lemma AutoLinkClosed(contents: string, email: bool)
    ensures Closed(TagsAndLinks.AutoLinkHtml(contents, email))
  {
    var address := if email then EmailEncode("mailto:" + contents, false) else contents;
    var text := if email then EmailEncode(contents, false) else contents;
    LastIsBracket(TagsAndLinks.AnchorHtml(address, "") + Encode(text, TEXT), "</a>");
  }

  lemma TagClosed(contents: string, whole: string, table: seq<Hidden>)
    requires whole != "" && RefsOk(Cut(contents), |table|)
    ensures EntryClosed(TagsAndLinks.EntryOf(TagsAndLinks.Tag(contents), whole, table))
  {
    LastIsBracket("<" + Encode(Restore(contents, table), Flags(true, false, true, false)), ">");
  }

  /** Every piece of markup that a match stores ends with a closing bracket or holds no opening one. */
  lemma PlainEntryClosed(link: TagsAndLinks.Link, whole: string, table: seq<Hidden>)
    requires whole != "" && (link.Unresolved? || link.AsIs?)
    ensures EntryClosed(TagsAndLinks.EntryOf(link, whole, table))
  {
    EncodedClosed(whole[..1], TEXT);
    EncodedClosed(whole, TEXT);
  }

  lemma LinkEntryClosed(link: TagsAndLinks.Link, whole: string, table: seq<Hidden>)
    requires whole != "" && (link.Tag? ==> RefsOk(Cut(link.contents), |table|))
    ensures EntryClosed(TagsAndLinks.EntryOf(link, whole, table))
  {
    match link
    case Unresolved => PlainEntryClosed(link, whole, table);
    case AsIs => PlainEntryClosed(link, whole, table);
    case Image(alt, url, title) => ImageClosed(alt, url, title);
    case Anchor(_, url, title) => AnchorClosed(url, title);
    case AutoLink(contents, email) => AutoLinkClosed(contents, email);
    case Tag(contents) => TagClosed(contents, whole, table);
  }

  lemma AnchorEndClosed()
    ensures EntryClosed(TagsAndLinks.CLOSE_ANCHOR)
  {
    LastIsBracket("</a", ">");
    assert "</a" + ">" == "</a>";
  }

  lemma GrownClosed(h: TagsAndLinks.LinkHit, table: seq<Hidden>)
    requires h.LinkHit? && h.whole != "" && (h.link.Tag? ==> RefsOk(Cut(h.link.contents), |table|))
    requires AllClosed(table) && EntryClosed(TagsAndLinks.EntryOf(h.link, h.whole, table))
    ensures AllClosed(TagsAndLinks.Grown(h, table))
  {
    var entry := TagsAndLinks.EntryOf(h.link, h.whole, table);
    ClosedMore(table, entry);
    AnchorEndClosed();
    if h.link.Anchor? {
      ClosedMore(table + [entry], TagsAndLinks.CLOSE_ANCHOR);
    }
  }

  lemma {:induction false} LinksClosed(find: string -> TagsAndLinks.LinkHit, s: string, table: seq<Hidden>)
    requires TagsAndLinks.FindsLinks(find) && WellFormed(s, |table|) && AllClosed(table)
    ensures AllClosed(TagsAndLinks.HideLinks(find, s, table).items)
    decreases |s|
  {
    var h := find(s);
    if h.LinkHit? {
      TagsAndLinks.NextReady(find, s, table);
      LinkEntryClosed(h.link, h.whole, table);
      GrownClosed(h, table);
      LinksClosed(find, TagsAndLinks.Onwards(h), TagsAndLinks.Grown(h, table));
    }
  }

  lemma AllEntriesClosed(m: TagsAndLinks.Matchers, s: string)
    requires m.Valid() && MARK !in s
    ensures AllClosed(TagsAndLinks.HideAll(m, s).items)
  {
    TagsAndLinks.TagsOk(m.tag, m.known, m.attribute, s, []);
    TagsClosed(m.tag, m.known, m.attribute, s, []);
    var a := TagsAndLinks.HideTags(m.tag, m.known, m.attribute, s, []);
    SpansRestore(m.double, Double, a.text, a.items);
    SpansClosed(m.double, Double, a.text, a.items);
    var first := HideSpans(m.double, Double, a.text, a.items);
    SpansClosed(m.single, Single, first.text, first.items);
    TagsAndLinks.HiddenBeforeLinks(m, s);
    var b := TagsAndLinks.HideBeforeLinks(m, s);
    LinksClosed(m.link, b.text, b.items);
  }

  // ---------------------------------------------------------------- from end to end

  /** Any well-formed text, cut at its markers, resolved and expanded: every reference of every text
      token has its item, so the index assertion of the expanding loop holds; the tags of the markers
      balance; and the source forms joined are the restored text, if and only if no run mixes the two
      characters. */
  lemma ExpandedGroup(find: string -> RunHit, s: string, table: seq<Hidden>)
    requires FindsRuns(find) && WellFormed(s, |table|) && Ends(Tokenize(find, s))
    ensures var toks := Tokenize(find, s);
      && Walk(toks, 0).Some? && TextsOk(toks, |table|) && TextsOk(Resolve(toks), |table|) && RefsOk(Cut(s), |table|)
      && var out := Expanded(Resolve(toks), table);
      && Balanced(MarkerTags(out))
      && (JoinedSources(out) == Restore(s, table) <==> PureRuns(find, s))
  {
    var toks := Tokenize(find, s);
    EndsWithWalk(toks);
    TokenizedComesBack(find, s, table);
    ResolvedRestores(toks, table);
    BothPasses(toks);
    ExpandedSources(Resolve(toks), table);
    ExpandedMarkerTags(Resolve(toks), table);
  }

  /** Markers are made of asterisks and underscores. */
  predicate RunMarkers(s: seq<Tok>) {
    forall a :: a in Content(s) && a.One? ==> RunChar(a.ch)
  }

  lemma RunMarkersSplit(a: seq<Tok>, b: seq<Tok>)
    ensures RunMarkers(a + b) <==> RunMarkers(a) && RunMarkers(b)
  {
    ContentJoin(a, b);
    assert forall x :: x in Content(a + b) <==> x in Content(a) || x in Content(b);
  }

  lemma TextHasNoMarker(text: string)
    ensures RunMarkers([Text(text)]) && RunMarkers(TextIf(text))
  {
    assert Content([Text(text)]) == [Whole(text)] + Content([]);
  }

  lemma RunIsMarker(open: bool, run: string)
    requires IsRun(run)
    ensures RunMarkers([MarkerOf(open, run)])
  {
    assert RunChar(run[0]);
    assert Content([MarkerOf(open, run)]) == ContentOf(MarkerOf(open, run)) + Content([]);
  }

  lemma HitMarkers(h: RunHit)
    requires !h.NoRun? && IsRun(h.run)
    ensures RunMarkers(TokensOf(h))
  {
    TextHasNoMarker(h.pre);
    if h.Run? {
      RunIsMarker(h.open, h.run);
      RunMarkersSplit(TextIf(h.pre), [MarkerOf(h.open, h.run)]);
    } else {
      var opener, closer, text := [MarkerOf(true, h.run)], [MarkerOf(false, h.run)], [Text(h.contents)];
      TextHasNoMarker(h.contents);
      RunIsMarker(true, h.run);
      RunIsMarker(false, h.run);
      RunMarkersSplit(text, closer);
      RunMarkersSplit(opener, text + closer);
      RunMarkersSplit(TextIf(h.pre), opener + (text + closer));
    }
  }

  lemma {:induction false} RunsAreMarkers(find: string -> RunHit, s: string)
    requires FindsRuns(find)
    ensures RunMarkers(Tokenize(find, s))
    decreases |s|
  {
    var h := find(s);
    if h.NoRun? {
      TextHasNoMarker(s);
    } else {
      RunsAreMarkers(find, h.rest);
      HitMarkers(h);
      RunMarkersSplit(TokensOf(h), Tokenize(find, h.rest));
    }
  }

  /** From the source text to the written one: after all passes every reference that is read has its
      item, the markers' tags balance, the emphasis tags in the written text are those of the markers
      and of the stored markup, and they balance where the stored markup brings none of its own. */
  lemma FinishedGroup(m: TagsAndLinks.Matchers, find: string -> RunHit, s: string)
    requires m.Valid() && FindsRuns(find) && MARK !in s
    requires Ends(Tokenize(find, TagsAndLinks.HideAll(m, s).text))
    ensures var r := TagsAndLinks.HideAll(m, s);
            var toks := Tokenize(find, r.text);
      && Walk(toks, 0).Some? && TextsOk(toks, |r.items|) && TextsOk(Resolve(toks), |r.items|)
      && RefsOk(Cut(r.text), |r.items|)
      && var out := Expanded(Resolve(toks), r.items);
      && Balanced(MarkerTags(out))
      && (JoinedSources(out) == Restore(r.text, r.items) <==> PureRuns(find, r.text))
      && AllOutOk(out) && TagsIn(Written(out)) == AllOutTags(out)
      && (NoOwnTags(out) ==> Balanced(TagsIn(Written(out))))
  {
    var r := TagsAndLinks.HideAll(m, s);
    var toks := Tokenize(find, r.text);
    TagsAndLinks.ItemsAlwaysExist(m, s);
    ExpandedGroup(find, r.text, r.items);
    var out := Expanded(Resolve(toks), r.items);
    AllEntriesClosed(m, s);
    RunsAreMarkers(find, r.text);
    assert NoAngleMarkers(toks);
    BothPasses(toks);
    ExpandedOk(Resolve(toks), r.items);
    WrittenOut(out);
    if NoOwnTags(out) {
      OnlyMarkerTags(out);
    }
  }
}
