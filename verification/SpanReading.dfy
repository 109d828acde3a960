/** What a reader sees of a written group: drop the tags of its HTML and decode the entities, and what is
    left are the texts, the escaped characters and the contents of the code spans, in their order. */
module SpanReading {
  import opened Placeholders
  import opened WellFormedText
  import opened Encoders
  import opened CodeSpans
  import opened EmphasisTokens
  import opened EmphasisMatching
  import opened EmphasisTermination
  import opened EmphasisHtml
  import opened SpanTokens
  import opened SpanWriting
  import opened SpanElements
  import opened HtmlText
  import LinkReading
  import TagReading
  import TagsAndLinks

  // ---------------------------------------------------------------- what is to be seen

  /** What a token shows: a matched or disabled marker nothing, another one its characters, and stored
      markup whatever it reads as. */
  function VisibleOf(o: Out): string {
    match o
    case Span(Raw(text)) => text
    case Span(Escaped(c)) => [c]
    case Span(Stored(CodeSpan(text))) => text
    case Span(Stored(Markup(html))) => TextOf(html)
    case Mark(t) => if t.Marker? && !t.disabled && !MatchedOpen(t) && !MatchedClose(t) then Copies(t.ch, t.size) else ""
  }

  function Visible(os: seq<Out>): string {
    if os == [] then "" else VisibleOf(os[0]) + Visible(os[1..])
  }

  /** Decoding gives the text of a token back. */
  predicate Kept(o: Out) {
    o.Span? && o.e.Raw? ==> Keeps(o.e.text, TEXT)
  }

  predicate AllKept(os: seq<Out>) {
    forall i :: 0 <= i < |os| ==> Kept(os[i])
  }

  /** No tag and no entity begins in the token and ends behind it. */
  ghost predicate Legible(o: Out) {
    match o
    case Span(Escaped(c)) => c != '<' && c != '&'
    case Span(Stored(Markup(html))) => Settled(html)
    case Span(_) => true
    case Mark(t) => Sane(t) && t.Marker? && RunMarkers([t])
  }

  ghost predicate AllLegible(os: seq<Out>) {
    forall i :: 0 <= i < |os| ==> Legible(os[i])
  }

  // ---------------------------------------------------------------- tokens read back

  lemma NamedTag(name: string, tag: string)
    requires '>' !in name && '"' !in name && tag == "<" + name + ">"
    ensures Reads(tag, "")
  {
    TagReading.NoQuotes(name);
    TagReads(name);
  }

  lemma EmphasisTagReads(t: EmphasisHtml.Tag)
    ensures Reads(TagText(t), "")
  {
    match t
    case OpenTag(Em) => NamedTag("em", TagText(t));
    case OpenTag(Strong) => NamedTag("strong", TagText(t));
    case CloseTag(Em) => NamedTag("/em", TagText(t));
    case CloseTag(Strong) => NamedTag("/strong", TagText(t));
  }

  lemma {:induction false} TagsRead(ts: seq<EmphasisHtml.Tag>)
    ensures Reads(TagsText(ts), "")
    decreases |ts|
  {
    if ts == [] {
      NothingReads();
    } else {
      EmphasisTagReads(ts[0]);
      TagsRead(ts[1..]);
      ReadsJoin(TagText(ts[0]), TagsText(ts[1..]), "", "");
    }
  }

  lemma {:induction false} CopiesRead(ch: char, n: nat)
    requires RunChar(ch)
    ensures Reads(Copies(ch, n), Copies(ch, n))
    decreases n
  {
    if n == 0 {
      NothingReads();
    } else {
      var one, more := [ch], Copies(ch, n - 1);
      CopiesRead(ch, n - 1);
      CharacterReads(ch);
      ReadsJoin(one, more, one, more);
      assert Copies(ch, n) == one + more;
    }
  }

  lemma MarkerReads(t: Tok)
    requires Legible(Mark(t))
    ensures Reads(Html(t), VisibleOf(Mark(t)))
  {
    HtmlIsTagsOrText(t);
    if MatchedOpen(t) || MatchedClose(t) {
      TagsRead(Tags(t));
    } else if t.disabled {
      NothingReads();
    } else {
      assert Content([t]) == ContentOf(t) + Content([]);
      assert ContentOf(t)[0] == One(t.ch) && One(t.ch) in Content([t]);
      CopiesRead(t.ch, t.size);
    }
  }

  lemma CodeReads(text: string)
    ensures Reads(EntryHtml(CodeSpan(text)), text)
  {
    var e := Encode(text, CODE);
    NamedTag("code", "<code>");
    NamedTag("/code", "</code>");
    EncodedReads(text, CODE);
    CodeRoundTrip(text);
    ReadsJoin("<code>", e, "", text);
    assert "" + text == text && text + "" == text;
    ReadsJoin("<code>" + e, "</code>", text, "");
  }

  /** What is read of a token: a raw text may lose entities that it held. */
  function ReadOf(o: Out): string {
    if o.Span? && o.e.Raw? then Decode(Encode(o.e.text, TEXT)) else VisibleOf(o)
  }

  lemma TokenReads(o: Out)
    requires Legible(o)
    ensures Reads(OutHtml(o), ReadOf(o))
  {
    match o
    case Span(Raw(text)) => EncodedReads(text, TEXT);
    case Span(Escaped(c)) => CharacterReads(c);
    case Span(Stored(h)) => if h.CodeSpan? { CodeReads(h.text); }
    case Mark(t) => MarkerReads(t);
  }

  lemma ReadOrLess(o: Out)
    ensures |ReadOf(o)| <= |VisibleOf(o)|
    ensures ReadOf(o) == VisibleOf(o) <==> Kept(o)
  {
    if o.Span? && o.e.Raw? {
      DecodedLength(o.e.text, TEXT);
      EncodedComesBack(o.e.text, TEXT);
    }
  }

  lemma SameParts(a: string, b: string, x: string, y: string)
    requires |a| <= |x| && |b| <= |y|
    ensures |a + b| <= |x + y| && (a + b == x + y <==> a == x && b == y)
  {
    if a + b == x + y {
      assert |a + b| == |x + y|;
      SpanTokens.SameParts(a, x, b, y);
    }
  }

  lemma KeptStep(os: seq<Out>)
    requires os != []
    ensures AllKept(os) <==> Kept(os[0]) && AllKept(os[1..])
  {
    assert forall i :: 1 <= i < |os| ==> os[i] == os[1..][i - 1];
  }

  lemma ReadStep(o: Out, html: string, shown: string)
    requires Legible(o) && |TextOf(html)| <= |shown|
    ensures |TextOf(OutHtml(o) + html)| <= |VisibleOf(o) + shown|
    ensures TextOf(OutHtml(o) + html) == VisibleOf(o) + shown <==> Kept(o) && TextOf(html) == shown
  {
    TokenReads(o);
    ReadsAs(OutHtml(o), ReadOf(o), html);
    ReadOrLess(o);
    SameParts(ReadOf(o), TextOf(html), VisibleOf(o), shown);
  }

  /** What is read of the HTML of a group is what its tokens show if and only if no ampersand of a raw text
      that the encoder leaves alone begins an entity; otherwise less is read. */
  lemma {:induction false} WrittenReadsBack(os: seq<Out>)
    requires AllLegible(os)
    ensures |TextOf(Written(os))| <= |Visible(os)|
    ensures TextOf(Written(os)) == Visible(os) <==> AllKept(os)
    decreases |os|
  {
    if os != [] {
      WrittenReadsBack(os[1..]);
      ReadStep(os[0], Written(os[1..]), Visible(os[1..]));
      KeptStep(os);
    }
  }

  // ---------------------------------------------------------------- table entries are settled

  ghost predicate EntrySettled(h: Hidden) {
    h.Markup? ==> Settled(h.html)
  }

  ghost predicate AllSettled(table: seq<Hidden>) {
    forall i :: 0 <= i < |table| ==> EntrySettled(table[i])
  }

  lemma SettledMore(table: seq<Hidden>, h: Hidden)
    requires AllSettled(table) && EntrySettled(h)
    ensures AllSettled(table + [h])
  {
  }

  /** Images hold no quotation mark, and tags an even number of them. */
  predicate QuotesClosed(link: TagsAndLinks.Link, table: seq<Hidden>)
    requires link.Tag? ==> RefsOk(Cut(link.contents), |table|)
  {
    match link
    case Image(alt, url, title) => '"' !in alt && '"' !in url && '"' !in title
    case Tag(contents) => !OddQuotes(Restore(contents, table))
    case _ => true
  }

  /** The same for every match that the link pass comes to. */
  predicate AllQuotesClosed(find: string -> TagsAndLinks.LinkHit, s: string, table: seq<Hidden>)
    requires TagsAndLinks.FindsLinks(find) && WellFormed(s, |table|)
    decreases |s|
  {
    var h := find(s);
    h.NoLink? ||
      (TagsAndLinks.NextReady(find, s, table);
       QuotesClosed(h.link, table) && AllQuotesClosed(find, TagsAndLinks.Onwards(h), TagsAndLinks.Grown(h, table)))
  }

  lemma LinkEntrySettled(link: TagsAndLinks.Link, whole: string, table: seq<Hidden>)
    requires whole != "" && (link.Tag? ==> RefsOk(Cut(link.contents), |table|)) && QuotesClosed(link, table)
    ensures EntrySettled(TagsAndLinks.EntryOf(link, whole, table))
  {
    match link
    case Unresolved => EncodedReads(whole[..1], TEXT);
    case AsIs => EncodedReads(whole, TEXT);
    case Image(alt, url, title) => LinkReading.ImageIsTag(alt, url, title);
    case Anchor(_, url, title) => LinkReading.AnchorIsTag(url, title);
    case AutoLink(contents, email) => LinkReading.AutoLinkSettled(contents, email);
    case Tag(contents) => TagReading.TagStored(contents, whole, table);
  }

  lemma {:induction false} AttributesSettled(attribute: string -> TagsAndLinks.Piece, tag: string, table: seq<Hidden>)
    requires TagsAndLinks.FindsPieces(attribute) && AllSettled(table)
    ensures AllSettled(TagsAndLinks.HideAttributes(attribute, tag, table).items)
    decreases |tag|
  {
    var h := attribute(tag);
    if h.Piece? {
      var entry := Markup(Encode(h.body, TagsAndLinks.ATTRIBUTE));
      EncodedReads(h.body, TagsAndLinks.ATTRIBUTE);
      SettledMore(table, entry);
      AttributesSettled(attribute, h.rest, table + [entry]);
    }
  }

  lemma {:induction false} TagsSettled(tag: string -> TagsAndLinks.Piece, known: string -> bool,
                                       attribute: string -> TagsAndLinks.Piece, s: string, table: seq<Hidden>)
    requires TagsAndLinks.FindsPieces(tag) && TagsAndLinks.FindsPieces(attribute) && AllSettled(table)
    ensures AllSettled(TagsAndLinks.HideTags(tag, known, attribute, s, table).items)
    decreases |s|
  {
    var h := tag(s);
    if h.Piece? {
      AttributesSettled(attribute, h.body, table);
      var inside := if known(h.body) then TagsAndLinks.HideAttributes(attribute, h.body, table)
                    else Hidings(h.body, table);
      TagsSettled(tag, known, attribute, h.rest, inside.items);
    }
  }

  lemma {:induction false} SpansSettled(find: string -> CodeSpans.Span, q: Quotes, s: string, table: seq<Hidden>)
    requires Finds(find, q) && WellFormed(s, |table|) && AllSettled(table)
    ensures AllSettled(HideSpans(find, q, s, table).items)
    decreases |s|
  {
    var h := find(s);
    if h.Span? {
      SpanParts(q, h, table);
      var entry := CodeSpan(Restore(h.inner, table));
      SettledMore(table, entry);
      Grows(h.rest, table, table + [entry]);
      SpansSettled(find, q, h.rest, table + [entry]);
    }
  }

  lemma GrownSettled(h: TagsAndLinks.LinkHit, table: seq<Hidden>)
    requires h.LinkHit? && h.whole != "" && (h.link.Tag? ==> RefsOk(Cut(h.link.contents), |table|))
    requires AllSettled(table) && EntrySettled(TagsAndLinks.EntryOf(h.link, h.whole, table))
    ensures AllSettled(TagsAndLinks.Grown(h, table))
  {
    var entry := TagsAndLinks.EntryOf(h.link, h.whole, table);
    SettledMore(table, entry);
    LinkReading.EndTagReads();
    if h.link.Anchor? {
      SettledMore(table + [entry], TagsAndLinks.CLOSE_ANCHOR);
    }
  }

  lemma {:induction false} LinksSettled(find: string -> TagsAndLinks.LinkHit, s: string, table: seq<Hidden>)
    requires TagsAndLinks.FindsLinks(find) && WellFormed(s, |table|) && AllSettled(table)
    requires AllQuotesClosed(find, s, table)
    ensures AllSettled(TagsAndLinks.HideLinks(find, s, table).items)
    decreases |s|
  {
    var h := find(s);
    if h.LinkHit? {
      TagsAndLinks.NextReady(find, s, table);
      LinkEntrySettled(h.link, h.whole, table);
      GrownSettled(h, table);
      LinksSettled(find, TagsAndLinks.Onwards(h), TagsAndLinks.Grown(h, table));
    }
  }

  lemma AllEntriesSettled(m: TagsAndLinks.Matchers, s: string)
    requires m.Valid() && MARK !in s
    ensures var b := TagsAndLinks.HideBeforeLinks(m, s);
            WellFormed(b.text, |b.items|) &&
                (AllQuotesClosed(m.link, b.text, b.items) ==> AllSettled(TagsAndLinks.HideAll(m, s).items))
  {
    TagsAndLinks.TagsOk(m.tag, m.known, m.attribute, s, []);
    TagsSettled(m.tag, m.known, m.attribute, s, []);
    var a := TagsAndLinks.HideTags(m.tag, m.known, m.attribute, s, []);
    SpansRestore(m.double, Double, a.text, a.items);
    SpansSettled(m.double, Double, a.text, a.items);
    var first := HideSpans(m.double, Double, a.text, a.items);
    SpansSettled(m.single, Single, first.text, first.items);
    TagsAndLinks.HiddenBeforeLinks(m, s);
    var b := TagsAndLinks.HideBeforeLinks(m, s);
    if AllQuotesClosed(m.link, b.text, b.items) {
      LinksSettled(m.link, b.text, b.items);
    }
  }

  // ---------------------------------------------------------------- from source text to what is read

  lemma RefLegible(ref: string, table: seq<Hidden>)
    requires ValidRef(ref, |table|) && AllSettled(table)
    ensures AllLegible(SpanWriting.Spans(EncodedOf(ref, table)))
  {
    assert '<' !in ESCAPABLE && '&' !in ESCAPABLE;
  }

  lemma LegibleJoin(a: seq<Out>, b: seq<Out>)
    requires AllLegible(a) && AllLegible(b)
    ensures AllLegible(a + b)
  {
  }

  lemma {:induction false} PiecesLegible(run: string, p: Pieces, table: seq<Hidden>)
    requires RefsOk(p, |table|) && AllSettled(table)
    ensures AllLegible(SpanWriting.Spans(EncodePieces(run, p, table)))
    decreases p
  {
    match p
    case End =>
    case Letter(c, rest) => PiecesLegible(run + [c], rest, table);
    case Item(ref, rest) =>
      var raw, item, tail := RawIf(run), EncodedOf(ref, table), EncodePieces("", rest, table);
      PiecesLegible("", rest, table);
      RefLegible(ref, table);
      SpansJoin(raw, item);
      SpansJoin(raw + item, tail);
      LegibleJoin(SpanWriting.Spans(raw), SpanWriting.Spans(item));
      LegibleJoin(SpanWriting.Spans(raw) + SpanWriting.Spans(item), SpanWriting.Spans(tail));
  }

  lemma {:induction false} ExpandedLegible(s: seq<Tok>, table: seq<Hidden>)
    requires TextsOk(s, |table|) && AllSettled(table) && AllSane(s) && RunMarkers(s)
    ensures AllLegible(Expanded(s, table))
    decreases |s|
  {
    if s != [] {
      var t := s[0];
      assert s == [t] + s[1..] && Sane(t);
      RunMarkersSplit([t], s[1..]);
      ExpandedLegible(s[1..], table);
      if t.Text? {
        PiecesLegible("", Cut(t.text), table);
      }
      LegibleJoin(OutOf(t, table), Expanded(s[1..], table));
    }
  }

  /** From the source text to what is read of its HTML: if images hold no quotation mark and tags an even
      number of them, dropping the tags and decoding the entities leaves what the finished tokens show,
      if and only if no ampersand of a raw text that the encoder leaves alone begins an entity. */
  lemma RenderedReadsBack(m: TagsAndLinks.Matchers, find: string -> RunHit, s: string)
    requires m.Valid() && FindsRuns(find) && MARK !in s
    requires Ends(Tokenize(find, TagsAndLinks.HideAll(m, s).text))
    ensures var b, r := TagsAndLinks.HideBeforeLinks(m, s), TagsAndLinks.HideAll(m, s);
            var toks := Tokenize(find, r.text);
      && WellFormed(b.text, |b.items|) && Walk(toks, 0).Some? && TextsOk(Resolve(toks), |r.items|)
      && (AllQuotesClosed(m.link, b.text, b.items) ==>
            var out := Expanded(Resolve(toks), r.items);
            TextOf(Written(out)) == Visible(out) <==> AllKept(out))
  {
    var b, r := TagsAndLinks.HideBeforeLinks(m, s), TagsAndLinks.HideAll(m, s);
    var toks := Tokenize(find, r.text);
    FinishedGroup(m, find, s);
    AllEntriesSettled(m, s);
    if AllQuotesClosed(m.link, b.text, b.items) {
      RunsAreMarkers(find, r.text);
      BothPasses(toks);
      ExpandedLegible(Resolve(toks), r.items);
      WrittenReadsBack(Expanded(Resolve(toks), r.items));
    }
  }
}
