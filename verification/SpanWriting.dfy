/** The tokens that are written in the end, and what is written for them. */
module SpanWriting {
  import opened Wrappers
  import opened Placeholders
  import opened WellFormedText
  import opened Encoders
  import opened EmphasisTokens
  import opened EmphasisMatching
  import opened EmphasisHtml
  import opened SpanTokens

  /** A token of the finished group: what a placeholder or the text around it stands for, or a marker. */
  datatype Out = Span(e: Encoded) | Mark(t: Tok)

  function Spans(es: seq<Encoded>): (r: seq<Out>)
    ensures |r| == |es|
  {
    seq(|es|, i requires 0 <= i < |es| => Span(es[i]))
  }

  /** A resolved token, its text expanded. */
  function OutOf(t: Tok, table: seq<Hidden>): seq<Out>
    requires TextOk(t, |table|)
  {
    if t.Text? then Spans(EncodePieces("", Cut(t.text), table)) else [Mark(t)]
  }

  function Expanded(s: seq<Tok>, table: seq<Hidden>): seq<Out>
    requires TextsOk(s, |table|)
  {
    if s == [] then [] else OutOf(s[0], table) + Expanded(s[1..], table)
  }

  // ---------------------------------------------------------------- the source form

  function SourceOfOut(o: Out): string {
    match o
    case Span(e) => SourceOf(e)
    case Mark(t) => if t.Marker? && !t.disabled then Copies(t.ch, t.size) else ""
  }

  /** The source form of a group, joined. */
  function JoinedSources(os: seq<Out>): string {
    if os == [] then "" else SourceOfOut(os[0]) + JoinedSources(os[1..])
  }

  lemma {:induction false} JoinedSourcesJoin(a: seq<Out>, b: seq<Out>)
    ensures JoinedSources(a + b) == JoinedSources(a) + JoinedSources(b)
    decreases |a|
  {
    if a == [] {
      assert a + b == b;
    } else {
      assert (a + b)[0] == a[0] && (a + b)[1..] == a[1..] + b;
      JoinedSourcesJoin(a[1..], b);
    }
  }

  lemma {:induction false} SpansSources(es: seq<Encoded>)
    ensures JoinedSources(Spans(es)) == Sources(es)
    decreases |es|
  {
    if es != [] {
      SpansSources(es[1..]);
      assert Spans(es)[1..] == Spans(es[1..]);
    }
  }

  lemma OutSources(t: Tok, table: seq<Hidden>)
    requires TextOk(t, |table|)
    ensures JoinedSources(OutOf(t, table)) == RestoredToken(t, table)
  {
    if t.Text? {
      SpansSources(EncodePieces("", Cut(t.text), table));
      EncodeAgreesWithRestore("", Cut(t.text), table);
    } else {
      NoTail(RestoredToken(t, table));
    }
  }

  lemma {:induction false} ExpandedSources(s: seq<Tok>, table: seq<Hidden>)
    requires TextsOk(s, |table|)
    ensures JoinedSources(Expanded(s, table)) == RestoredTokens(s, table)
    decreases |s|
  {
    if s != [] {
      ExpandedSources(s[1..], table);
      OutSources(s[0], table);
      JoinedSourcesJoin(OutOf(s[0], table), Expanded(s[1..], table));
    }
  }

  // ---------------------------------------------------------------- the tags of the markers

  function OutMarkerTags(o: Out): seq<Tag> {
    if o.Mark? then Tags(o.t) else []
  }

  /** The tags that the markers of a group write. */
  function MarkerTags(os: seq<Out>): seq<Tag> {
    if os == [] then [] else OutMarkerTags(os[0]) + MarkerTags(os[1..])
  }

  lemma {:induction false} MarkerTagsJoin(a: seq<Out>, b: seq<Out>)
    ensures MarkerTags(a + b) == MarkerTags(a) + MarkerTags(b)
    decreases |a|
  {
    if a == [] {
      assert a + b == b;
    } else {
      assert (a + b)[0] == a[0] && (a + b)[1..] == a[1..] + b;
      MarkerTagsJoin(a[1..], b);
    }
  }

  lemma {:induction false} SpansHaveNoMarkers(es: seq<Encoded>)
    ensures MarkerTags(Spans(es)) == []
    decreases |es|
  {
    if es != [] {
      SpansHaveNoMarkers(es[1..]);
      assert Spans(es)[1..] == Spans(es[1..]);
    }
  }

  lemma OutMarkers(t: Tok, table: seq<Hidden>)
    requires TextOk(t, |table|)
    ensures MarkerTags(OutOf(t, table)) == Tags(t)
  {
    if t.Text? {
      SpansHaveNoMarkers(EncodePieces("", Cut(t.text), table));
    } else {
      assert Tags(t) + [] == Tags(t);
    }
  }

  /** Expanding the texts leaves the markers' tags as they are. */
  lemma {:induction false} ExpandedMarkerTags(s: seq<Tok>, table: seq<Hidden>)
    requires TextsOk(s, |table|)
    ensures MarkerTags(Expanded(s, table)) == AllTags(s)
    decreases |s|
  {
    if s != [] {
      ExpandedMarkerTags(s[1..], table);
      OutMarkers(s[0], table);
      MarkerTagsJoin(OutOf(s[0], table), Expanded(s[1..], table));
    }
  }

  // ---------------------------------------------------------------- the written text

  /** What writeAsHtml puts out for a table entry. */
  function EntryHtml(h: Hidden): string {
    match h
    case CodeSpan(text) => "<code>" + Encode(text, CODE) + "</code>"
    case Markup(html) => html
  }

  function OutHtml(o: Out): string {
    match o
    case Span(Raw(text)) => Encode(text, TEXT)
    case Span(Escaped(c)) => [c]
    case Span(Stored(h)) => EntryHtml(h)
    case Mark(t) => Html(t)
  }

  /** The HTML of a group. */
  function Written(os: seq<Out>): string {
    if os == [] then "" else OutHtml(os[0]) + Written(os[1..])
  }

  /** No tag that begins in the text can end behind it. */
  predicate Closed(html: string) {
    '<' !in html || html[|html| - 1] == '>'
  }

  lemma TagIsOne(t: Tag)
    ensures |TagText(t)| >= 1 && TagText(t)[0] == '<'
    ensures forall i :: 0 <= i < |TagText(t)| - 1 ==> TagText(t)[i] != '>'
  {
  }

  lemma NoStraddle(html: string, after: string, t: Tag)
    requires Closed(html) && html != "" && TagText(t) <= html + after
    ensures TagText(t) <= html
  {
    var text, all := TagText(t), html + after;
    TagIsOne(t);
    assert forall i :: 0 <= i < |html| ==> all[i] == html[i];
    assert forall i :: 0 <= i < |text| ==> all[i] == text[i];
    assert text == all[..|text|];
  }

  lemma SameLeadingTag(html: string, after: string)
    requires Closed(html) && html != ""
    ensures LeadingTag(html + after) == LeadingTag(html)
  {
    var all := html + after;
    assert html <= all;
    if LeadingTag(html).Some? {
      var t := LeadingTag(html).value;
      assert TagText(t) == html[..|TagText(t)|] == all[..|TagText(t)|];
      LeadingTagIs(t, all);
    } else if LeadingTag(all).Some? {
      NoStraddle(html, after, LeadingTag(all).value);
      LeadingTagIs(LeadingTag(all).value, html);
    }
  }

  lemma ClosedTail(html: string, k: nat)
    requires Closed(html) && k <= |html|
    ensures Closed(html[k..])
  {
  }

  /** The tags of a closed text are its own, whatever follows. */
  lemma {:induction false} TagsOfClosed(html: string, after: string)
    requires Closed(html)
    ensures TagsIn(html + after) == TagsIn(html) + TagsIn(after)
    decreases |html|
  {
    if html == "" {
      assert html + after == after;
    } else {
      SameLeadingTag(html, after);
      var k := if LeadingTag(html).Some? then |TagText(LeadingTag(html).value)| else 1;
      assert (html + after)[k..] == html[k..] + after;
      ClosedTail(html, k);
      TagsOfClosed(html[k..], after);
    }
  }

  /** The emphasis tags that an output token writes. */
  function OutTags(o: Out): seq<Tag> {
    match o
    case Span(Stored(Markup(html))) => TagsIn(html)
    case Span(_) => []
    case Mark(t) => Tags(t)
  }

  function AllOutTags(os: seq<Out>): seq<Tag> {
    if os == [] then [] else OutTags(os[0]) + AllOutTags(os[1..])
  }

  predicate EntryClosed(h: Hidden) {
    h.Markup? ==> Closed(h.html)
  }

  predicate AllClosed(table: seq<Hidden>) {
    forall i :: 0 <= i < |table| ==> EntryClosed(table[i])
  }

  /** What a token writes is closed, and no marker is made of angle brackets. */
  predicate OutOk(o: Out) {
    match o
    case Span(Escaped(c)) => c != '<'
    case Span(Stored(h)) => EntryClosed(h)
    case Span(Raw(_)) => true
    case Mark(t) => Sane(t) && t.Marker? && One('<') !in ContentOf(t)
  }

  predicate AllOutOk(os: seq<Out>) {
    forall i :: 0 <= i < |os| ==> OutOk(os[i])
  }

  /** The code tags are no emphasis tags. */
  lemma OtherTag(tag: string, after: string)
    requires tag == "<code>" || tag == "</code>"
    ensures TagsIn(tag + after) == TagsIn(after)
  {
    var all := tag + after;
    assert all[1] == tag[1] && all[2] == tag[2];
    assert LeadingTag(all).None?;
    assert all[1..] == tag[1..] + after;
    TagsBehindText(tag[1..], after);
  }

  lemma CodeTags(text: string, after: string)
    ensures TagsIn(EntryHtml(CodeSpan(text)) + after) == TagsIn(after)
  {
    var e := Encode(text, CODE);
    EncodedIsSafe(text, CODE);
    var close := "</code>" + after;
    assert EntryHtml(CodeSpan(text)) + after == "<code>" + (e + close);
    OtherTag("<code>", e + close);
    TagsBehindText(e, close);
    OtherTag("</code>", after);
  }

  lemma OutWritten(o: Out, after: string)
    requires OutOk(o)
    ensures TagsIn(OutHtml(o) + after) == OutTags(o) + TagsIn(after)
  {
    match o
    case Span(Raw(text)) =>
      EncodedIsSafe(text, TEXT);
      TagsBehindText(Encode(text, TEXT), after);
    case Span(Escaped(c)) => TagsBehindText([c], after);
    case Span(Stored(h)) =>
      if h.Markup? { TagsOfClosed(h.html, after); } else { CodeTags(h.text, after); }
    case Mark(t) => WrittenToken(t, after);
  }

  /** The emphasis tags that stand in the written text are those of the markers and of the entries, in
      their order; texts, escapes and code spans write none. */
  lemma {:induction false} WrittenOut(os: seq<Out>)
    requires AllOutOk(os)
    ensures TagsIn(Written(os)) == AllOutTags(os)
    decreases |os|
  {
    if os != [] {
      WrittenOut(os[1..]);
      OutWritten(os[0], Written(os[1..]));
    }
  }

  /** No entry of the group brings an emphasis tag of its own. */
  predicate NoOwnTags(os: seq<Out>) {
    forall i :: 0 <= i < |os| && os[i].Span? ==> OutTags(os[i]) == []
  }

  lemma {:induction false} OnlyMarkerTags(os: seq<Out>)
    requires NoOwnTags(os)
    ensures AllOutTags(os) == MarkerTags(os)
    decreases |os|
  {
    if os != [] {
      OnlyMarkerTags(os[1..]);
      assert os[0].Span? ==> OutTags(os[0]) == [];
    }
  }

  // ---------------------------------------------------------------- expanded groups

  /** What a placeholder stands for is safe to write. */
  lemma RefOk(ref: string, table: seq<Hidden>)
    requires ValidRef(ref, |table|) && AllClosed(table)
    ensures AllOutOk(Spans(EncodedOf(ref, table)))
  {
  }

  lemma OksJoin(a: seq<Out>, b: seq<Out>)
    requires AllOutOk(a) && AllOutOk(b)
    ensures AllOutOk(a + b)
  {
  }

  lemma SpansJoin(a: seq<Encoded>, b: seq<Encoded>)
    ensures Spans(a + b) == Spans(a) + Spans(b)
  {
  }

  lemma {:induction false} PiecesOk(run: string, p: Pieces, table: seq<Hidden>)
    requires RefsOk(p, |table|) && AllClosed(table)
    ensures AllOutOk(Spans(EncodePieces(run, p, table)))
    decreases p
  {
    match p
    case End =>
    case Letter(c, rest) => PiecesOk(run + [c], rest, table);
    case Item(ref, rest) =>
      var tail := EncodePieces("", rest, table);
      PiecesOk("", rest, table);
      RefOk(ref, table);
      SpansJoin(RawIf(run), EncodedOf(ref, table));
      SpansJoin(RawIf(run) + EncodedOf(ref, table), tail);
      OksJoin(Spans(RawIf(run)), Spans(EncodedOf(ref, table)));
      OksJoin(Spans(RawIf(run)) + Spans(EncodedOf(ref, table)), Spans(tail));
  }

  /** With a table of closed entries, everything that a resolved list expands to is safe to write. */
  lemma {:induction false} ExpandedOk(s: seq<Tok>, table: seq<Hidden>)
    requires TextsOk(s, |table|) && AllClosed(table) && AllSane(s) && NoAngleMarkers(s)
    ensures AllOutOk(Expanded(s, table))
    decreases |s|
  {
    if s != [] {
      var t := s[0];
      assert Sane(t) && Content(s) == ContentOf(t) + Content(s[1..]);
      ExpandedOk(s[1..], table);
      if t.Text? {
        PiecesOk("", Cut(t.text), table);
      }
      OksJoin(OutOf(t, table), Expanded(s[1..], table));
    }
  }
}
