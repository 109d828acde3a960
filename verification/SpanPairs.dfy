/** What the cutting loop is for: a run found as an opener and the next one found as a closer come out as
    a start tag and an end tag around the text between them. */
module SpanPairs {
  import opened Wrappers
  import opened Placeholders
  import opened WellFormedText
  import opened EmphasisTokens
  import opened EmphasisMatching
  import opened EmphasisTermination
  import opened EmphasisHtml
  import opened EmphasisShift
  import opened EmphasisTriples
  import opened EmphasisPairs
  import opened SpanTokens
  import opened SpanWriting
  import opened SpanElements
  import EmphasisNesting

  /** The HTML of a text without markers: its placeholders expanded. */
  function TextHtml(text: string, table: seq<Hidden>): string
    requires RefsOk(Cut(text), |table|)
  {
    Written(Spans(EncodePieces("", Cut(text), table)))
  }

  /** The HTML of resolved tokens. */
  function GroupHtml(s: seq<Tok>, table: seq<Hidden>): string
    requires TextsOk(s, |table|)
  {
    Written(Expanded(s, table))
  }

  /** The HTML of a text with markers: cut, resolved, expanded and written. */
  ghost function Rendered(find: string -> RunHit, s: string, table: seq<Hidden>): string
    requires FindsRuns(find) && WellFormed(s, |table|) && Ends(Tokenize(find, s))
  {
    ExpandedGroup(find, s, table);
    GroupHtml(Resolve(Tokenize(find, s)), table)
  }

  // ---------------------------------------------------------------- writing in parts

  lemma {:induction false} WrittenJoin(a: seq<Out>, b: seq<Out>)
    ensures Written(a + b) == Written(a) + Written(b)
    decreases |a|
  {
    if a == [] {
      assert a + b == b;
    } else {
      assert (a + b)[0] == a[0] && (a + b)[1..] == a[1..] + b;
      WrittenJoin(a[1..], b);
    }
  }

  lemma ExpandedCons(t: Tok, s: seq<Tok>, table: seq<Hidden>)
    requires TextOk(t, |table|) && TextsOk(s, |table|)
    ensures TextsOk([t] + s, |table|) && Expanded([t] + s, table) == OutOf(t, table) + Expanded(s, table)
  {
    TextsCons(t, s, |table|);
    assert ([t] + s)[1..] == s;
  }

  lemma OneOut(t: Tok, table: seq<Hidden>)
    requires TextOk(t, |table|)
    ensures TextsOk([t], |table|) && Expanded([t], table) == OutOf(t, table)
  {
    assert [t][1..] == [] && OutOf(t, table) + [] == OutOf(t, table);
  }

  lemma GroupCons(t: Tok, s: seq<Tok>, table: seq<Hidden>)
    requires TextOk(t, |table|) && TextsOk(s, |table|)
    ensures TextsOk([t] + s, |table|) && TextsOk([t], |table|)
    ensures GroupHtml([t] + s, table) == GroupHtml([t], table) + GroupHtml(s, table)
  {
    OneOut(t, table);
    ExpandedCons(t, s, table);
    WrittenJoin(OutOf(t, table), Expanded(s, table));
  }

  lemma {:induction false} GroupJoin(a: seq<Tok>, b: seq<Tok>, table: seq<Hidden>)
    requires TextsOk(a, |table|) && TextsOk(b, |table|)
    ensures TextsOk(a + b, |table|) && GroupHtml(a + b, table) == GroupHtml(a, table) + GroupHtml(b, table)
    decreases |a|
  {
    if a == [] {
      assert a + b == b && GroupHtml(a, table) == "";
    } else {
      var t, rest := a[0], a[1..];
      assert a == [t] + rest && a + b == [t] + (rest + b);
      TextsCons(t, rest, |table|);
      GroupJoin(rest, b, table);
      GroupCons(t, rest, table);
      GroupCons(t, rest + b, table);
      Grouped(GroupHtml([t], table), GroupHtml(rest, table), GroupHtml(b, table));
    }
  }

  lemma GroupText(text: string, table: seq<Hidden>)
    requires RefsOk(Cut(text), |table|)
    ensures TextsOk([Text(text)], |table|) && GroupHtml([Text(text)], table) == TextHtml(text, table)
    ensures TextsOk(TextIf(text), |table|) && GroupHtml(TextIf(text), table) == TextHtml(text, table)
  {
    OneOut(Text(text), table);
    if text == "" {
      assert Cut(text) == End && Spans([]) == [];
    }
  }

  lemma GroupMarker(t: Tok, table: seq<Hidden>)
    requires t.Marker?
    ensures TextsOk([t], |table|) && GroupHtml([t], table) == Html(t)
  {
    OneOut(t, table);
    var os := [Mark(t)];
    assert os[1..] == [] && Written(os) == OutHtml(os[0]) + Written(os[1..]);
  }

  lemma UpOne(t: Tok, k: nat, table: seq<Hidden>)
    requires TextOk(t, |table|)
    ensures TextOk(Up(t, k), |table|) && TextsOk([t], |table|) && TextsOk([Up(t, k)], |table|)
    ensures GroupHtml([Up(t, k)], table) == GroupHtml([t], table)
  {
    if t.Marker? {
      GroupMarker(t, table);
      GroupMarker(Up(t, k), table);
    }
  }

  lemma UpStep(t: Tok, s: seq<Tok>, k: nat, table: seq<Hidden>)
    requires TextOk(t, |table|) && TextsOk(s, |table|) && TextsOk(UpAll(s, k), |table|)
    requires GroupHtml(UpAll(s, k), table) == GroupHtml(s, table)
    ensures TextsOk([t] + s, |table|) && TextsOk(UpAll([t] + s, k), |table|)
    ensures GroupHtml(UpAll([t] + s, k), table) == GroupHtml([t] + s, table)
  {
    UpOne(t, k, table);
    UpCons(t, s, k);
    GroupCons(t, s, table);
    GroupCons(Up(t, k), UpAll(s, k), table);
  }

  /** The HTML does not show the pair ids. */
  lemma {:induction false} GroupUp(s: seq<Tok>, k: nat, table: seq<Hidden>)
    requires TextsOk(s, |table|)
    ensures TextsOk(UpAll(s, k), |table|) && GroupHtml(UpAll(s, k), table) == GroupHtml(s, table)
    decreases |s|
  {
    if s == [] {
      assert UpAll(s, k) == [];
    } else {
      assert s == [s[0]] + s[1..];
      TextsCons(s[0], s[1..], |table|);
      GroupUp(s[1..], k, table);
      UpStep(s[0], s[1..], k, table);
    }
  }

  // ---------------------------------------------------------------- pairs

  /** The tags of a run of one, two or three characters. */
  function StartTag(n: nat): string {
    if n == 1 then "<em>" else if n == 2 then "<strong>" else "<strong><em>"
  }

  function EndTag(n: nat): string {
    if n == 1 then "</em>" else if n == 2 then "</strong>" else "</em></strong>"
  }

  /** What is written for an opener and a closer with text around them, and a rest. */
  lemma PairWritten(ch: char, n: nat, pre: seq<Tok>, mid: seq<Tok>, rest: seq<Tok>, table: seq<Hidden>)
    requires TextsOk(pre, |table|) && TextsOk(mid, |table|) && TextsOk(rest, |table|)
    ensures var s := Around(pre, InPair(true, ch, n, 0), mid, InPair(false, ch, n, 0), rest);
      && TextsOk(s, |table|)
      && GroupHtml(s, table) ==
         GroupHtml(pre, table) + (StartTag(n) + (GroupHtml(mid, table) + (EndTag(n) + GroupHtml(rest, table))))
  {
    var o, c := InPair(true, ch, n, 0), InPair(false, ch, n, 0);
    GroupMarker(o, table);
    GroupMarker(c, table);
    GroupJoin([c], rest, table);
    GroupJoin(mid, [c] + rest, table);
    GroupJoin([o], mid + ([c] + rest), table);
    GroupJoin(pre, [o] + (mid + ([c] + rest)), table);
  }

  lemma TextIsIdle(text: string)
    ensures Idle(TextIf(text)) && AllSane(TextIf(text)) && Idle([Text(text)]) && AllSane([Text(text)])
  {
  }

  /** Texts around an opener and a closer of one run, in front of the tokens of a rest. */
  lemma PairRendered(find: string -> RunHit, s: string, run: string, pre: seq<Tok>, mid: seq<Tok>, rest: string,
                     table: seq<Hidden>)
    requires FindsRuns(find) && WellFormed(s, |table|) && WellFormed(rest, |table|)
    requires 1 <= |run| <= 3 && Idle(pre) && Idle(mid) && AllSane(pre) && AllSane(mid)
    requires TextsOk(pre, |table|) && TextsOk(mid, |table|)
    requires Tokenize(find, s) ==
             Around(pre, Fresh(true, run[0], |run|), mid, Fresh(false, run[0], |run|), Tokenize(find, rest))
    ensures Ends(Tokenize(find, s)) <==> Ends(Tokenize(find, rest))
    ensures Ends(Tokenize(find, s)) ==>
              Rendered(find, s, table) == GroupHtml(pre, table) +
                  (StartTag(|run|) + (GroupHtml(mid, table) + (EndTag(|run|) + Rendered(find, rest, table))))
  {
    var post := Tokenize(find, rest);
    PairResolved(run[0], |run|, pre, mid, post);
    if Ends(Tokenize(find, s)) {
      ExpandedGroup(find, s, table);
      ExpandedGroup(find, rest, table);
      GroupUp(Resolve(post), 1, table);
      PairWritten(run[0], |run|, pre, mid, UpAll(Resolve(post), 1), table);
    }
  }

  lemma RunsTokens(a: seq<Tok>, o: Tok, b: seq<Tok>, c: Tok, rest: seq<Tok>)
    ensures (a + [o]) + ((b + [c]) + rest) == Around(a, o, b, c, rest)
    ensures (a + ([o] + (b + [c]))) + rest == Around(a, o, b, c, rest)
  {
  }

  /** A run that is found as an opener, and the next match the same run as a closer: the pass ends exactly
      if it ends on what stands behind, and the HTML is that of the text in front, a start tag by the
      length of the run, the HTML of the text between, the end tag, and that of the rest on its own. */
  lemma OpenAndClose(find: string -> RunHit, s: string, table: seq<Hidden>)
    requires FindsRuns(find) && WellFormed(s, |table|)
    requires find(s).Run? && find(s).open
    requires var g := find(find(s).rest); g.Run? && !g.open && g.run == find(s).run
    ensures var h, g := find(s), find(find(s).rest);
      && WellFormed(g.rest, |table|) && RefsOk(Cut(h.pre), |table|) && RefsOk(Cut(g.pre), |table|)
      && (Ends(Tokenize(find, s)) <==> Ends(Tokenize(find, g.rest)))
      && (Ends(Tokenize(find, s)) ==>
            Rendered(find, s, table) == TextHtml(h.pre, table) +
                (StartTag(|h.run|) + (TextHtml(g.pre, table) + (EndTag(|h.run|) + Rendered(find, g.rest, table)))))
  {
    var h, g := find(s), find(find(s).rest);
    HitParts(h, table);
    HitParts(g, table);
    GroupText(h.pre, table);
    GroupText(g.pre, table);
    TextIsIdle(h.pre);
    TextIsIdle(g.pre);
    RunsTokens(TextIf(h.pre), MarkerOf(true, h.run), TextIf(g.pre), MarkerOf(false, g.run), Tokenize(find, g.rest));
    PairRendered(find, s, h.run, TextIf(h.pre), TextIf(g.pre), g.rest, table);
  }

  /** A run around a piece of a word is such a pair, whatever characters it mixes. */
  lemma AroundAWord(find: string -> RunHit, s: string, table: seq<Hidden>)
    requires FindsRuns(find) && WellFormed(s, |table|) && find(s).Word?
    ensures var h := find(s);
      && WellFormed(h.rest, |table|) && RefsOk(Cut(h.pre), |table|) && RefsOk(Cut(h.contents), |table|)
      && (Ends(Tokenize(find, s)) <==> Ends(Tokenize(find, h.rest)))
      && (Ends(Tokenize(find, s)) ==>
            Rendered(find, s, table) == TextHtml(h.pre, table) +
                (StartTag(|h.run|) + (TextHtml(h.contents, table) + (EndTag(|h.run|) + Rendered(find, h.rest, table)))))
  {
    var h := find(s);
    HitParts(h, table);
    GroupText(h.pre, table);
    GroupText(h.contents, table);
    TextIsIdle(h.pre);
    TextIsIdle(h.contents);
    RunsTokens(TextIf(h.pre), MarkerOf(true, h.run), [Text(h.contents)], MarkerOf(false, h.run),
               Tokenize(find, h.rest));
    PairRendered(find, s, h.run, TextIf(h.pre), [Text(h.contents)], h.rest, table);
  }

  lemma BothPassesIdle(toks: seq<Tok>)
    requires Idle(toks) && AllSane(toks) && Walk(toks, 0) == Some(toks)
    ensures Resolve(toks) == toks
  {
    NestedPast(toks, [], EmphasisNesting.Empty);
    assert toks + [] == toks;
    EmphasisNesting.NestedIsKept(toks);
  }

  /** A text in which no run is found is one text token. */
  lemma NoRuns(find: string -> RunHit, s: string, table: seq<Hidden>)
    requires FindsRuns(find) && WellFormed(s, |table|) && find(s).NoRun?
    ensures RefsOk(Cut(s), |table|) && Ends(Tokenize(find, s)) && Rendered(find, s, table) == TextHtml(s, table)
  {
    var toks := TextIf(s);
    WellFormedRefsOk(s, |table|);
    TextIsIdle(s);
    WalkIdle(toks, [], 0);
    assert toks + [] == toks;
    EndsWithWalk(toks);
    ExpandedGroup(find, s, table);
    BothPassesIdle(toks);
    GroupText(s, table);
  }
}
