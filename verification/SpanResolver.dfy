/** The last stage on objects: the loop that cuts a text at its markers, the two matching passes, the
    loop that expands the texts between them, and the writer of the finished group. */
module SpanResolver {
  import opened Placeholders
  import opened WellFormedText
  import opened Encoders
  import opened EmphasisTokens
  import opened EmphasisMatching
  import opened EmphasisTermination
  import opened EmphasisHtml
  import opened EmphasisResolver
  import opened SpanTokens
  import opened SpanWriting
  import SpanElements
  import SpanRendering
  import Hiding
  import TagsAndLinks

  // ---------------------------------------------------------------- cutting a text at its markers

  lemma TextAdded(ts: seq<Token>, vs: seq<Tok>, ms: set<BoldOrItalicMarker>, text: string)
    requires Holds(ts, vs, ms)
    ensures Holds(ts + [Other(text)], vs + [Text(text)], ms)
  {
    var ts', vs' := ts + [Other(text)], vs + [Text(text)];
    forall i | 0 <= i < |ts'| ensures Views(ts'[i], vs'[i], ms) {
      if i < |ts| { assert Views(ts[i], vs[i], ms); }
    }
  }

  lemma MarkerAdded(ts: seq<Token>, vs: seq<Tok>, ms: set<BoldOrItalicMarker>, m: BoldOrItalicMarker)
    requires Holds(ts, vs, ms) && m !in ms && m.partner == null
    ensures Holds(ts + [Emphasis(m)], vs + [m.View()], ms + {m})
  {
    var ts', vs' := ts + [Emphasis(m)], vs + [m.View()];
    NotIn(ts, vs, ms, m);
    forall i | 0 <= i < |ts'| ensures Views(ts'[i], vs'[i], ms + {m}) {
      if i < |ts| { assert Views(ts[i], vs[i], ms); }
    }
    forall o | o in ms + {m} ensures Emphasis(o) in ts' {
      if o != m { assert Emphasis(o) in ts; } else { assert ts'[|ts|] == Emphasis(m); }
    }
  }

  method AddText(ts: seq<Token>, text: string, ghost vs: seq<Tok>, ghost ms: set<BoldOrItalicMarker>)
    returns (ts': seq<Token>)
    requires Holds(ts, vs, ms)
    ensures Holds(ts', vs + TextIf(text), ms)
  {
    ts' := ts;
    assert vs + [] == vs;
    if text != "" {
      TextAdded(ts, vs, ms, text);
      ts' := ts + [Other(text)];
    }
  }

  method AddMarker(ts: seq<Token>, open: bool, run: string, ghost vs: seq<Tok>, ghost ms: set<BoldOrItalicMarker>)
    returns (ts': seq<Token>, ghost ms': set<BoldOrItalicMarker>)
    requires Holds(ts, vs, ms) && IsRun(run)
    ensures Holds(ts', vs + [MarkerOf(open, run)], ms')
    ensures forall m :: m in ms' ==> m in ms || fresh(m)
  {
    var m := new BoldOrItalicMarker(open, run[0], |run|);
    MarkerAdded(ts, vs, ms, m);
    ts' := ts + [Emphasis(m)];
    ms' := ms + {m};
  }

  /** One match of the cutting loop. */
  method AddHit(ts: seq<Token>, h: RunHit, ghost vs: seq<Tok>, ghost ms: set<BoldOrItalicMarker>)
    returns (ts': seq<Token>, ghost ms': set<BoldOrItalicMarker>)
    requires Holds(ts, vs, ms) && !h.NoRun? && IsRun(h.run)
    ensures Holds(ts', vs + TokensOf(h), ms')
    ensures forall m :: m in ms' ==> m in ms || fresh(m)
  {
    ts' := AddText(ts, h.pre, vs, ms);
    ghost var vs1 := vs + TextIf(h.pre);
    match h {
      case Run(pre, open, run, _) =>
        ts', ms' := AddMarker(ts', open, run, vs1, ms);
        assert vs1 + [MarkerOf(open, run)] == vs + TokensOf(h);
      case Word(pre, run, contents, _) =>
        ts', ms' := AddMarker(ts', true, run, vs1, ms);
        ghost var vs2 := vs1 + [MarkerOf(true, run)];
        TextAdded(ts', vs2, ms', contents);
        ts' := ts' + [Other(contents)];
        ghost var vs3 := vs2 + [Text(contents)];
        ts', ms' := AddMarker(ts', false, run, vs3, ms');
        assert vs3 + [MarkerOf(false, run)] == vs + TokensOf(h);
    }
  }

  lemma TokenizeStep(find: string -> RunHit, s: string, vs: seq<Tok>)
    requires FindsRuns(find) && !find(s).NoRun?
    ensures var h := find(s);
      && IsRun(h.run) && |h.rest| < |s|
      && vs + Tokenize(find, s) == (vs + TokensOf(h)) + Tokenize(find, h.rest)
  {
  }

  /** The cutting loop, `rest` being the text from the iterator on. */
  method TokenizeText(src: string, find: string -> RunHit) returns (tgt: seq<Token>, ghost ms: set<BoldOrItalicMarker>)
    requires FindsRuns(find)
    ensures Holds(tgt, Tokenize(find, src), ms)
    ensures forall m :: m in ms ==> fresh(m)
  {
    tgt, ms := [], {};
    var rest := src;
    ghost var vs: seq<Tok> := [];
    assert vs + Tokenize(find, src) == Tokenize(find, src);
    while true
      invariant Holds(tgt, vs, ms) && vs + Tokenize(find, rest) == Tokenize(find, src)
      invariant forall m :: m in ms ==> fresh(m)
      decreases |rest|
    {
      var h := find(rest);
      if h.NoRun? {
        tgt := AddText(tgt, rest, vs, ms);
        return;
      }
      TokenizeStep(find, rest, vs);
      tgt, ms := AddHit(tgt, h, vs, ms);
      vs, rest := vs + TokensOf(h), h.rest;
    }
  }

  // ---------------------------------------------------------------- expanding the texts

  /** A token of the finished group. */
  datatype SpanToken = Plain(e: Encoded) | Marked(m: BoldOrItalicMarker)

  ghost predicate Stands(t: SpanToken, o: Out, ms: set<BoldOrItalicMarker>)
    reads ms
  {
    match t
    case Plain(e) => o == Span(e)
    case Marked(m) => m in ms && o == Mark(m.View())
  }

  /** The group stands for the values `os`. */
  ghost predicate Finished(ts: seq<SpanToken>, os: seq<Out>, ms: set<BoldOrItalicMarker>)
    reads ms
  {
    Linked(ms) && |ts| == |os| && forall i :: 0 <= i < |ts| ==> Stands(ts[i], os[i], ms)
  }

  lemma FinishedJoin(a: seq<SpanToken>, b: seq<SpanToken>, x: seq<Out>, y: seq<Out>, ms: set<BoldOrItalicMarker>)
    requires Finished(a, x, ms) && Finished(b, y, ms)
    ensures Finished(a + b, x + y, ms)
  {
    forall i | 0 <= i < |a + b| ensures Stands((a + b)[i], (x + y)[i], ms) {
      if i < |a| { assert Stands(a[i], x[i], ms); } else { assert Stands(b[i - |a|], y[i - |a|], ms); }
    }
  }

  function Plains(es: seq<Encoded>): seq<SpanToken> {
    seq(|es|, i requires 0 <= i < |es| => Plain(es[i]))
  }

  /** The tokens that one token of the resolved list turns into. */
  method ExpandToken(t: Token, table: seq<Hidden>, ghost v: Tok, ghost ms: set<BoldOrItalicMarker>)
    returns (r: seq<SpanToken>)
    requires Linked(ms) && Views(t, v, ms) && TextOk(v, |table|)
    ensures Finished(r, OutOf(v, table), ms)
  {
    match t {
      case Other(text) =>
        var es := EncodeProcessedItems(text, table);
        r := Plains(es);
      case Emphasis(m) => r := [Marked(m)];
    }
  }

  lemma ExpandedHead(vs: seq<Tok>, before: seq<Out>, table: seq<Hidden>)
    requires vs != [] && TextsOk(vs, |table|)
    ensures TextOk(vs[0], |table|) && TextsOk(vs[1..], |table|)
    ensures before + Expanded(vs, table) == (before + OutOf(vs[0], table)) + Expanded(vs[1..], table)
  {
  }

  /** The expanding loop. */
  method ExpandTokens(ts: seq<Token>, table: seq<Hidden>, ghost vs: seq<Tok>, ghost ms: set<BoldOrItalicMarker>)
    returns (r: seq<SpanToken>)
    requires Holds(ts, vs, ms) && TextsOk(vs, |table|)
    ensures Finished(r, Expanded(vs, table), ms)
  {
    r := [];
    ghost var os: seq<Out> := [];
    ghost var rest := vs;
    assert os + Expanded(vs, table) == Expanded(vs, table);
    for i := 0 to |ts|
      invariant rest == vs[i..] && TextsOk(rest, |table|)
      invariant Finished(r, os, ms) && os + Expanded(rest, table) == Expanded(vs, table)
    {
      assert Views(ts[i], vs[i], ms) && rest[0] == vs[i];
      ExpandedHead(rest, os, table);
      var tokens := ExpandToken(ts[i], table, rest[0], ms);
      FinishedJoin(r, tokens, os, OutOf(rest[0], table), ms);
      os, rest := os + OutOf(rest[0], table), rest[1..];
      r := r + tokens;
    }
    assert rest == [] && os + [] == os;
  }

  // ---------------------------------------------------------------- the whole stage

  /** _processBoldAndItalicSpans, for texts on whose tokens the first pass ends. */
  method ProcessBoldAndItalicSpans(src: string, find: string -> RunHit, replacements: Hiding.ReplacementTable)
    returns (r: seq<SpanToken>, ghost ms: set<BoldOrItalicMarker>)
    requires FindsRuns(find) && WellFormed(src, |replacements.items|) && Ends(Tokenize(find, src))
    ensures var toks := Tokenize(find, src);
      && Walk(toks, 0).Some? && TextsOk(Resolve(toks), |replacements.items|)
      && Finished(r, Expanded(Resolve(toks), replacements.items), ms)
  {
    SpanElements.ExpandedGroup(find, src, replacements.items);
    var tgt;
    tgt, ms := TokenizeText(src, find);
    ghost var vs := Tokenize(find, src);
    tgt, vs, ms := ResolveEmphasis(tgt, vs, ms);
    r := ExpandTokens(tgt, replacements.items, vs, ms);
  }

  /** RawText::processSpanElements: all passes on one text, from its source form to the tokens that are
      written. */
  method ProcessSpanElements(src: string, m: TagsAndLinks.Matchers, find: string -> RunHit)
    returns (r: seq<SpanToken>, ghost ms: set<BoldOrItalicMarker>)
    requires m.Valid() && FindsRuns(find) && MARK !in src
    requires Ends(Tokenize(find, TagsAndLinks.HideAll(m, src).text))
    ensures var h := TagsAndLinks.HideAll(m, src);
            var toks := Tokenize(find, h.text);
      && Walk(toks, 0).Some? && TextsOk(Resolve(toks), |h.items|)
      && Finished(r, Expanded(Resolve(toks), h.items), ms)
  {
    var str, replacements := TagsAndLinks.ProcessSpanElements(src, m);
    TagsAndLinks.ItemsAlwaysExist(m, src);
    r, ms := ProcessBoldAndItalicSpans(str, find, replacements);
  }

  /** What is written for a table entry. */
  method WriteEntry(h: Hidden) returns (out: string)
    ensures out == EntryHtml(h)
  {
    match h {
      case CodeSpan(text) =>
        var code := EncodeString(text, CODE);
        out := "<code>" + code + "</code>";
      case Markup(html) => out := html;
    }
  }

  /** What is written for one token. */
  method WriteSpanToken(t: SpanToken, ghost o: Out, ghost ms: set<BoldOrItalicMarker>) returns (out: string)
    requires Linked(ms) && Stands(t, o, ms) && OutOk(o)
    ensures out == OutHtml(o)
  {
    match t {
      case Plain(Raw(text)) => out := EncodeString(text, TEXT);
      case Plain(Escaped(c)) => out := [c];
      case Plain(Stored(h)) => out := WriteEntry(h);
      case Marked(m) => out := m.WriteAsHtml();
    }
  }

  lemma WrittenStep(os: seq<Out>, before: string)
    requires os != []
    ensures before + Written(os) == (before + OutHtml(os[0])) + Written(os[1..])
  {
  }

  /** The writer of the finished group. */
  method WriteGroup(ts: seq<SpanToken>, ghost os: seq<Out>, ghost ms: set<BoldOrItalicMarker>) returns (out: string)
    requires Finished(ts, os, ms) && AllOutOk(os)
    ensures out == Written(os)
  {
    out := "";
    ghost var rest := os;
    for i := 0 to |ts|
      invariant rest == os[i..] && out + Written(rest) == Written(os)
    {
      assert Stands(ts[i], os[i], ms) && OutOk(os[i]) && rest[0] == os[i];
      var piece := WriteSpanToken(ts[i], os[i], ms);
      WrittenStep(rest, out);
      out, rest := out + piece, rest[1..];
    }
    assert rest == [] && out + "" == out;
  }

  /** A text from its source form to its HTML. */
  method RenderText(src: string, m: TagsAndLinks.Matchers, find: string -> RunHit) returns (html: string)
    requires m.Valid() && FindsRuns(find) && MARK !in src
    requires Ends(Tokenize(find, TagsAndLinks.HideAll(m, src).text))
    ensures var h := TagsAndLinks.HideAll(m, src);
            var toks := Tokenize(find, h.text);
      && Walk(toks, 0).Some? && TextsOk(Resolve(toks), |h.items|)
      && var out := Expanded(Resolve(toks), h.items);
      && html == Written(out) && (NoOwnTags(out) ==> Balanced(TagsIn(html)))
    ensures html == SpanRendering.PageHtml(m, find, src)
  {
    var ts, ms := ProcessSpanElements(src, m, find);
    SpanElements.FinishedGroup(m, find, src);
    ghost var h := TagsAndLinks.HideAll(m, src);
    ghost var os := Expanded(Resolve(Tokenize(find, h.text)), h.items);
    html := WriteGroup(ts, os, ms);
  }
}
