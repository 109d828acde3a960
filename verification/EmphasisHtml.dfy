/** The HTML that the markers write after both passes: its emphasis tags balance. */
module EmphasisHtml {
  import opened Encoders
  import opened Wrappers
  import opened EmphasisTokens
  import opened EmphasisMatching
  import opened EmphasisPairing
  import opened EmphasisNesting

  datatype Element = Em | Strong

  datatype Tag = OpenTag(name: Element) | CloseTag(name: Element)

  function TagText(t: Tag): string {
    match t
    case OpenTag(Em) => "<em>"
    case OpenTag(Strong) => "<strong>"
    case CloseTag(Em) => "</em>"
    case CloseTag(Strong) => "</strong>"
  }

  function TagsText(ts: seq<Tag>): string {
    if ts == [] then "" else TagText(ts[0]) + TagsText(ts[1..])
  }

  /** The tags that a token writes. */
  function Tags(t: Tok): seq<Tag> {
    if MatchedOpen(t) then
      if t.size == 1 then [OpenTag(Em)] else if t.size == 2 then [OpenTag(Strong)] else [OpenTag(Strong), OpenTag(Em)]
    else if MatchedClose(t) then
      if t.size == 1 then [CloseTag(Em)] else if t.size == 2 then [CloseTag(Strong)]
          else [CloseTag(Em), CloseTag(Strong)]
    else []
  }

  /** A matched marker writes exactly its tags, another one the characters it stands for, and a text
      its encoding. */
  lemma HtmlIsTagsOrText(t: Tok)
    requires Sane(t)
    ensures Html(t) == if MatchedOpen(t) || MatchedClose(t) then TagsText(Tags(t))
                       else if t.Text? then Encode(t.text, TEXT)
                       else if t.disabled then ""
                       else Copies(t.ch, t.size)
  {
    if MatchedOpen(t) || MatchedClose(t) {
      var ts := Tags(t);
      if |ts| == 2 {
        assert ts[1..][1..] == [];
        assert TagsText(ts[1..]) == TagText(ts[1]) + TagsText(ts[1..][1..]);
      } else {
        assert ts[1..] == [];
      }
    }
  }

  function AllTags(s: seq<Tok>): seq<Tag> {
    if s == [] then [] else Tags(s[0]) + AllTags(s[1..])
  }

  datatype OpenElements = NoElement | Open(name: Element, outer: OpenElements)

  /** Reads tags with a stack of open elements, as an HTML parser does; None on a mismatch. */
  function Feed(ts: seq<Tag>, st: OpenElements): Option<OpenElements>
    decreases |ts|
  {
    if ts == [] then Some(st)
    else
      match ts[0]
      case OpenTag(name) => Feed(ts[1..], Open(name, st))
      case CloseTag(name) => if st.Open? && st.name == name then Feed(ts[1..], st.outer) else None
  }

  predicate Balanced(ts: seq<Tag>) {
    Feed(ts, NoElement) == Some(NoElement)
  }

  lemma {:induction false} FeedAppend(a: seq<Tag>, b: seq<Tag>, st: OpenElements)
    ensures Feed(a + b, st) == match Feed(a, st) case Some(mid) => Feed(b, mid) case None => None
    decreases |a|
  {
    if a == [] {
      assert a + b == b;
    } else {
      assert (a + b)[1..] == a[1..] + b;
      match a[0]
      case OpenTag(name) => FeedAppend(a[1..], b, Open(name, st));
      case CloseTag(name) => if st.Open? && st.name == name { FeedAppend(a[1..], b, st.outer); }
    }
  }

  /** The elements open inside `outer` after a matched opener of this size. */
  function Opened(size: nat, outer: OpenElements): OpenElements {
    if size == 1 then Open(Em, outer) else if size == 2 then Open(Strong, outer) else Open(Em, Open(Strong, outer))
  }

  function OpenedAll(st: IdStack, open: map<int, Kind>): OpenElements
    requires Ids(st) <= open.Keys
  {
    match st
    case Empty => NoElement
    case Push(id, below) => Opened(open[id].size, OpenedAll(below, open))
  }

  lemma {:induction false} OpenedAllAgrees(st: IdStack, open: map<int, Kind>, open': map<int, Kind>)
    requires Ids(st) <= open.Keys && Ids(st) <= open'.Keys
    requires forall k :: k in Ids(st) ==> open[k] == open'[k]
    ensures OpenedAll(st, open) == OpenedAll(st, open')
    decreases st
  {
    if st.Push? {
      assert st.id in Ids(st);
      OpenedAllAgrees(st.below, open, open');
    }
  }

  lemma FeedOpener(t: Tok, st: OpenElements)
    requires MatchedOpen(t)
    ensures Feed(Tags(t), st) == Some(Opened(t.size, st))
  {
    var ts := Tags(t);
    assert ts[1..] == (if |ts| == 2 then [ts[1]] else []);
    if |ts| == 2 {
      assert ts[1..][1..] == [];
      assert Feed(ts[1..], Open(Strong, st)) == Feed(ts[1..][1..], Open(Em, Open(Strong, st)));
    }
  }

  lemma FeedCloser(t: Tok, st: OpenElements)
    requires MatchedClose(t)
    ensures Feed(Tags(t), Opened(t.size, st)) == Some(st)
  {
    var ts := Tags(t);
    assert ts[1..] == (if |ts| == 2 then [ts[1]] else []);
    if |ts| == 2 {
      assert ts[1..][1..] == [];
      assert Feed(ts[1..], Open(Strong, st)) == Feed(ts[1..][1..], st);
    }
  }

  lemma {:induction false} NestedTagsBalance(s: seq<Tok>, st: IdStack, open: map<int, Kind>, least: int)
    requires Paired(s, open) && Ascending(s, least) && WellNested(s, st)
    requires Ids(st) == open.Keys && Falling(st, least)
    ensures Feed(AllTags(s), OpenedAll(st, open)) == Some(NoElement)
    decreases |s|
  {
    if s != [] {
      var t := s[0];
      FeedAppend(Tags(t), AllTags(s[1..]), OpenedAll(st, open));
      FallingBelow(st, least);
      if MatchedOpen(t) {
        var open' := open[t.id := Kind(t.ch, t.size)];
        FeedOpener(t, OpenedAll(st, open));
        OpenedAllAgrees(st, open, open');
        FallingWeakens(st, least, t.id);
        NestedTagsBalance(s[1..], Push(t.id, st), open', t.id + 1);
      } else if MatchedClose(t) {
        var open' := open - {t.id};
        FallingBelow(st.below, st.id);
        FallingWeakens(st.below, st.id, least);
        FeedCloser(t, OpenedAll(st.below, open));
        assert open'.Keys == Ids(st.below);
        OpenedAllAgrees(st.below, open, open');
        NestedTagsBalance(s[1..], st.below, open', least);
      } else {
        NestedTagsBalance(s[1..], st, open, least);
      }
    }
  }

  // ---------------------------------------------------------------- both passes together

  /** What the two passes leave of a token list on which the first one ends. */
  function Resolve(s: seq<Tok>): seq<Tok>
    requires AllSane(s) && Walk(s, 0).Some?
  {
    Unnest(Walk(s, 0).value)
  }

  lemma {:induction false} UntouchedIsUnpaired(s: seq<Tok>)
    requires Untouched(s)
    ensures AllSane(s) && NoMatchedOpen(s) && Paired(s, map[])
    decreases |s|
  {
    if s != [] {
      assert Untouched(s[1..]) by { assert forall i :: 0 <= i < |s[1..]| ==> s[1..][i] == s[i + 1]; }
      UntouchedIsUnpaired(s[1..]);
      assert Sane(s[0]) && !MatchedOpen(s[0]);
      assert s == [s[0]] + s[1..];
    }
  }

  /** The first pass pairs soundly: distinct ids, openers before their closers, equal character
      and size; and it leaves no opener that could still be closed. */
  lemma FirstPass(s: seq<Tok>)
    requires Untouched(s)
    requires AllSane(s) && Walk(s, 0).Some?
    ensures var r := Walk(s, 0).value;
      && AllSane(r) && Paired(r, map[]) && Ascending(r, 0) && UniqueIds(r)
      && (forall i, j :: Pair(r, i, j) ==> r[i].ch == r[j].ch && r[i].size == r[j].size)
      && Maximal(r)
      && (forall i, j, m {:trigger Pair(r, i, j), r[m]} :: Pair(r, i, j) && i < m < j ==>
         Spared(r[m], Kind(r[i].ch, r[i].size), r[i].id))
      && Content(r) == Content(s)
  {
    UntouchedIsUnpaired(s);
    WalkPairs(s, 0, map[]);
    WalkKeepsSane(s, 0);
    WalkIsMaximal(s, 0);
    WalkIsGreedy(s, 0);
    WalkConserves(s, 0);
    var r := Walk(s, 0).value;
    SoundByPosition(r);
    forall i, j, m | Pair(r, i, j) && i < m < j ensures Spared(r[m], Kind(r[i].ch, r[i].size), r[i].id) {
      GreedyByPosition(r, i, j, m);
    }
  }

  /** After both passes: the matched markers nest, each closer closing its own partner, their tags
      balance, and the list still stands for the same texts and marker characters in the same order. */
  lemma BothPasses(s: seq<Tok>)
    requires Untouched(s)
    requires AllSane(s) && Walk(s, 0).Some?
    ensures var r := Resolve(s);
      && AllSane(r) && Paired(r, map[]) && UniqueIds(r)
      && WellNested(r, Empty)
      && Balanced(AllTags(r))
      && Content(r) == Content(s)
  {
    FirstPass(s);
    var w := Walk(s, 0).value;
    var dead := Second(w, Empty, {});
    var none: map<int, Kind> := map[];
    UnnestNests(w);
    DropPairs(w, map[], dead);
    assert none - dead == none;
    DropAscends(w, 0, 0, dead);
    DropConserves(w, dead);
    DropSane(w, dead);
    SoundByPosition(Resolve(s));
    NestedTagsBalance(Resolve(s), Empty, map[], 0);
  }

  // ---------------------------------------------------------------- the written text

  /** The HTML of a token list. */
  function HtmlOf(s: seq<Tok>): string {
    if s == [] then "" else Html(s[0]) + HtmlOf(s[1..])
  }

  lemma HtmlStep(s: seq<Tok>, before: string)
    requires s != []
    ensures before + HtmlOf(s) == (before + Html(s[0])) + HtmlOf(s[1..])
  {
  }

  /** The emphasis tag at the start of a text. */
  function LeadingTag(s: string): (t: Option<Tag>)
    ensures t.Some? ==> TagText(t.value) <= s
  {
    if "<em>" <= s then Some(OpenTag(Em))
    else if "</em>" <= s then Some(CloseTag(Em))
    else if "<strong>" <= s then Some(OpenTag(Strong))
    else if "</strong>" <= s then Some(CloseTag(Strong))
    else None
  }

  /** The emphasis tags in a text, in their order. */
  function TagsIn(s: string): seq<Tag> {
    if s == "" then []
    else
      match LeadingTag(s)
      case Some(t) => [t] + TagsIn(s[|TagText(t)|..])
      case None => TagsIn(s[1..])
  }

  lemma {:induction false} TagsBehindText(a: string, b: string)
    requires '<' !in a
    ensures TagsIn(a + b) == TagsIn(b)
    decreases |a|
  {
    if a == "" {
      assert a + b == b;
    } else {
      var s := a + b;
      assert s[0] == a[0] && s[1..] == a[1..] + b;
      TagsBehindText(a[1..], b);
    }
  }

  lemma LeadingTagIs(t: Tag, s: string)
    requires TagText(t) <= s
    ensures LeadingTag(s) == Some(t)
  {
    assert s[1] == TagText(t)[1] && s[2] == TagText(t)[2];
  }

  lemma TagsBehindTag(t: Tag, b: string, s: string)
    requires s == TagText(t) + b
    ensures TagsIn(s) == [t] + TagsIn(b)
  {
    LeadingTagIs(t, s);
    assert s[|TagText(t)|..] == b;
  }

  lemma MoreTags(t: Tag, text: string, ts: seq<Tag>, more: string, b: string)
    requires text == TagText(t) && TagsIn(more + b) == ts + TagsIn(b)
    ensures TagsIn((text + more) + b) == ([t] + ts) + TagsIn(b)
  {
    assert (text + more) + b == text + (more + b);
    TagsBehindTag(t, more + b, text + (more + b));
    assert [t] + (ts + TagsIn(b)) == ([t] + ts) + TagsIn(b);
  }

  lemma {:induction false} TagsBehindTags(ts: seq<Tag>, b: string)
    ensures TagsIn(TagsText(ts) + b) == ts + TagsIn(b)
    decreases |ts|
  {
    if ts == [] {
      assert TagsText(ts) + b == b;
    } else {
      TagsBehindTags(ts[1..], b);
      MoreTags(ts[0], TagText(ts[0]), ts[1..], TagsText(ts[1..]), b);
      assert ts == [ts[0]] + ts[1..];
    }
  }

  /** No marker is made of angle brackets. */
  predicate NoAngleMarkers(s: seq<Tok>) {
    One('<') !in Content(s)
  }

  lemma WrittenToken(t: Tok, after: string)
    requires Sane(t) && One('<') !in ContentOf(t)
    ensures TagsIn(Html(t) + after) == Tags(t) + TagsIn(after)
  {
    HtmlIsTagsOrText(t);
    if MatchedOpen(t) || MatchedClose(t) {
      TagsBehindTags(Tags(t), after);
    } else {
      if t.Text? {
        EncodedIsSafe(t.text, TEXT);
      } else if !t.disabled {
        assert ContentOf(t)[0] == One(t.ch);
      }
      TagsBehindText(Html(t), after);
      assert [] + TagsIn(after) == TagsIn(after);
    }
  }

  /** The tags that stand in the written text are those that the markers write, whatever the texts
      between them hold. */
  lemma {:induction false} WrittenTags(s: seq<Tok>)
    requires AllSane(s) && NoAngleMarkers(s)
    ensures TagsIn(HtmlOf(s)) == AllTags(s)
    decreases |s|
  {
    if s != [] {
      assert Sane(s[0]) && Content(s) == ContentOf(s[0]) + Content(s[1..]);
      WrittenTags(s[1..]);
      WrittenToken(s[0], HtmlOf(s[1..]));
    }
  }

  /** The emphasis tags of the written text balance, whatever its texts hold. */
  lemma WrittenHtmlBalances(s: seq<Tok>)
    requires Untouched(s) && NoAngleMarkers(s)
    requires AllSane(s) && Walk(s, 0).Some?
    ensures Balanced(TagsIn(HtmlOf(Resolve(s))))
  {
    BothPasses(s);
    WrittenTags(Resolve(s));
  }

  /** Running the second pass again changes nothing. */
  lemma SecondPassIsIdempotent(s: seq<Tok>)
    requires Paired(s, map[]) && Ascending(s, 0)
    ensures Unnest(Unnest(s)) == Unnest(s)
  {
    UnnestNests(s);
    NestedIsKept(Unnest(s));
  }
}
