/** From the text that the hiding passes hand over to the tokens that are written: cutting it at the
    emphasis markers, resolving those, and expanding the text between them
    (_processBoldAndItalicSpans as a whole, on values). */
module SpanTokens {
  import opened Wrappers
  import opened Placeholders
  import opened WellFormedText
  import opened CodeSpans
  import opened EmphasisTokens
  import opened EmphasisMatching
  import opened EmphasisPairing
  import opened EmphasisNesting
  import opened EmphasisHtml

  // ---------------------------------------------------------------- cutting

  /** A match of the emphasis expression: an opener, a closer, or both around a piece of a word. */
  datatype RunHit =
    | NoRun
    | Run(pre: string, open: bool, run: string, rest: string)
    | Word(pre: string, run: string, contents: string, rest: string)

  predicate RunChar(c: char) {
    c == '*' || c == '_'
  }

  predicate IsRun(run: string) {
    1 <= |run| <= 3 && forall i :: 0 <= i < |run| ==> RunChar(run[i])
  }

  /** Made of one character only. */
  predicate Pure(run: string) {
    forall i :: 0 <= i < |run| ==> run[i] == run[0]
  }

  /** What a match takes out of the text, in front of the rest. */
  function Taken(h: RunHit): string
    requires !h.NoRun?
  {
    if h.Run? then h.pre + (h.run + h.rest) else h.pre + (h.run + (h.contents + (h.run + h.rest)))
  }

  /** The shape of the matches. Only a run within a word may mix the two characters. */
  ghost predicate FindsRuns(find: string -> RunHit) {
    forall s :: !find(s).NoRun? ==>
      IsRun(find(s).run) && s == Taken(find(s)) && (find(s).Run? ==> Pure(find(s).run))
  }

  /** The marker of a run: its length, and its first character alone. */
  function MarkerOf(open: bool, run: string): Tok
    requires IsRun(run)
  {
    Fresh(open, run[0], |run|)
  }

  function TextIf(text: string): seq<Tok> {
    if text == "" then [] else [Text(text)]
  }

  /** The tokens of one match. */
  function TokensOf(h: RunHit): seq<Tok>
    requires !h.NoRun? && IsRun(h.run)
  {
    if h.Run? then TextIf(h.pre) + [MarkerOf(h.open, h.run)]
    else TextIf(h.pre) + ([MarkerOf(true, h.run)] + ([Text(h.contents)] + [MarkerOf(false, h.run)]))
  }

  /** The token list of a text. */
  function Tokenize(find: string -> RunHit, s: string): (r: seq<Tok>)
    requires FindsRuns(find)
    ensures Untouched(r) && AllSane(r)
    decreases |s|
  {
    var h := find(s);
    if h.NoRun? then TextIf(s) else TokensOf(h) + Tokenize(find, h.rest)
  }

  /** No match mixes the two characters. */
  predicate PureRuns(find: string -> RunHit, s: string)
    requires FindsRuns(find)
    decreases |s|
  {
    var h := find(s);
    h.NoRun? || (Pure(h.run) && PureRuns(find, h.rest))
  }

  lemma ContentJoin(a: seq<Tok>, b: seq<Tok>)
    ensures Content(a + b) == Content(a) + Content(b)
    decreases |a|
  {
    if a == [] {
      assert a + b == b;
    } else {
      assert (a + b)[0] == a[0] && (a + b)[1..] == a[1..] + b;
      ContentJoin(a[1..], b);
    }
  }

  // ---------------------------------------------------------------- every text keeps its references

  /** Every text of the content can be expanded with a table of size n. */
  predicate AtomsOk(atoms: seq<Atom>, n: nat) {
    forall a :: a in atoms && a.Whole? ==> RefsOk(Cut(a.text), n)
  }

  /** Every text token can be expanded. */
  predicate TextsOk(s: seq<Tok>, n: nat) {
    forall i :: 0 <= i < |s| && s[i].Text? ==> RefsOk(Cut(s[i].text), n)
  }

  predicate TextOk(t: Tok, n: nat) {
    t.Text? ==> RefsOk(Cut(t.text), n)
  }

  lemma TextsCons(t: Tok, s: seq<Tok>, n: nat)
    ensures TextsOk([t] + s, n) <==> TextOk(t, n) && TextsOk(s, n)
  {
    var all := [t] + s;
    assert all[0] == t;
    forall i | 0 <= i < |s| ensures all[i + 1] == s[i] {
    }
  }

  lemma AtomsJoin(a: seq<Atom>, b: seq<Atom>, n: nat)
    ensures AtomsOk(a + b, n) <==> AtomsOk(a, n) && AtomsOk(b, n)
  {
    assert forall x :: x in a + b <==> x in a || x in b;
  }

  lemma TokenAtoms(t: Tok, n: nat)
    ensures AtomsOk(ContentOf(t), n) <==> TextOk(t, n)
  {
    if t.Text? {
      assert Whole(t.text) in ContentOf(t);
    }
  }

  lemma {:induction false} ContentTexts(s: seq<Tok>, n: nat)
    ensures AtomsOk(Content(s), n) <==> TextsOk(s, n)
    decreases |s|
  {
    if s != [] {
      ContentTexts(s[1..], n);
      TextsCons(s[0], s[1..], n);
      assert s == [s[0]] + s[1..];
      AtomsJoin(ContentOf(s[0]), Content(s[1..]), n);
      TokenAtoms(s[0], n);
    }
  }

  lemma TextsJoin(a: seq<Tok>, b: seq<Tok>, n: nat)
    requires TextsOk(a, n) && TextsOk(b, n)
    ensures TextsOk(a + b, n)
  {
  }

  lemma RunHead(run: string, rest: string)
    requires run != ""
    ensures run + rest == [run[0]] + (run[1..] + rest)
  {
  }

  lemma {:induction false} RunInFront(run: string, rest: string, table: seq<Hidden>)
    requires WellFormed(run + rest, |table|) && forall i :: 0 <= i < |run| ==> RunChar(run[i])
    ensures WellFormed(rest, |table|) && RefsOk(Cut(rest), |table|) && RefsOk(Cut(run + rest), |table|)
    ensures Restore(run + rest, table) == run + Restore(rest, table)
    decreases |run|
  {
    if run == "" {
      assert run + rest == rest;
      WellFormedRefsOk(rest, |table|);
      assert run + Restore(rest, table) == Restore(rest, table);
    } else {
      RunHead(run, rest);
      CutFirst(run[0], run[1..] + rest, table);
      RunInFront(run[1..], rest, table);
      RunHead(run, Restore(rest, table));
    }
  }

  /** A run never lies within a placeholder. */
  lemma CutAtRun(pre: string, run: string, rest: string, table: seq<Hidden>)
    requires WellFormed(pre + (run + rest), |table|) && run != "" && forall i :: 0 <= i < |run| ==> RunChar(run[i])
    ensures WellFormed(pre, |table|) && WellFormed(rest, |table|)
    ensures RefsOk(Cut(pre), |table|) && RefsOk(Cut(rest), |table|) && RefsOk(Cut(pre + (run + rest)), |table|)
    ensures Restore(pre + (run + rest), table) == Restore(pre, table) + (run + Restore(rest, table))
  {
    RunHead(run, rest);
    CutAt(pre, run[0], run[1..] + rest, table);
    RunInFront(run[1..], rest, table);
    RunHead(run, Restore(rest, table));
  }

  /** The parts of a match are well-formed, and restoring respects the cuts. */
  lemma HitParts(h: RunHit, table: seq<Hidden>)
    requires !h.NoRun? && IsRun(h.run) && WellFormed(Taken(h), |table|)
    ensures WellFormed(h.pre, |table|) && WellFormed(h.rest, |table|) && (h.Word? ==> WellFormed(h.contents, |table|))
    ensures RefsOk(Cut(h.pre), |table|) && RefsOk(Cut(h.rest), |table|) && RefsOk(Cut(Taken(h)), |table|)
    ensures h.Word? ==> RefsOk(Cut(h.contents), |table|)
    ensures h.Run? ==> Restore(Taken(h), table) == Restore(h.pre, table) + (h.run + Restore(h.rest, table))
    ensures h.Word? ==> Restore(Taken(h), table) == Restore(h.pre, table) + (h.run +
                          (Restore(h.contents, table) + (h.run + Restore(h.rest, table))))
  {
    if h.Run? {
      CutAtRun(h.pre, h.run, h.rest, table);
    } else {
      CutAtRun(h.pre, h.run, h.contents + (h.run + h.rest), table);
      CutAtRun(h.contents, h.run, h.rest, table);
    }
  }

  lemma TextIfOk(text: string, n: nat)
    requires RefsOk(Cut(text), n)
    ensures TextsOk(TextIf(text), n)
  {
  }

  lemma HitTextsOk(h: RunHit, n: nat)
    requires !h.NoRun? && IsRun(h.run) && RefsOk(Cut(h.pre), n) && (h.Word? ==> RefsOk(Cut(h.contents), n))
    ensures TextsOk(TokensOf(h), n)
  {
    TextIfOk(h.pre, n);
    if h.Run? {
      TextsJoin(TextIf(h.pre), [MarkerOf(h.open, h.run)], n);
    } else {
      TextsJoin([Text(h.contents)], [MarkerOf(false, h.run)], n);
      TextsJoin([MarkerOf(true, h.run)], [Text(h.contents)] + [MarkerOf(false, h.run)], n);
      TextsJoin(TextIf(h.pre), [MarkerOf(true, h.run)] + ([Text(h.contents)] + [MarkerOf(false, h.run)]), n);
    }
  }

  /** Cut at its markers, a well-formed text falls into texts that can all be expanded. */
  lemma {:induction false} TokenizeTextsOk(find: string -> RunHit, s: string, table: seq<Hidden>)
    requires FindsRuns(find) && WellFormed(s, |table|)
    ensures TextsOk(Tokenize(find, s), |table|)
    decreases |s|
  {
    var h := find(s);
    if h.NoRun? {
      WellFormedRefsOk(s, |table|);
      TextIfOk(s, |table|);
    } else {
      HitParts(h, table);
      TokenizeTextsOk(find, h.rest, table);
      HitTextsOk(h, |table|);
      TextsJoin(TokensOf(h), Tokenize(find, h.rest), |table|);
    }
  }

  /** Resolving moves and loses no text, so every text can still be expanded. */
  lemma ResolvedTextsOk(s: seq<Tok>, n: nat)
    requires Untouched(s) && AllSane(s) && Walk(s, 0).Some? && TextsOk(s, n)
    ensures TextsOk(Resolve(s), n)
  {
    BothPasses(s);
    ContentTexts(s, n);
    ContentTexts(Resolve(s), n);
  }

  // ---------------------------------------------------------------- what the tokens restore to

  function RestoredAtom(a: Atom, table: seq<Hidden>): string
    requires a.Whole? ==> RefsOk(Cut(a.text), |table|)
  {
    match a
    case Whole(text) => Restore(text, table)
    case One(ch) => [ch]
  }

  /** The text that a content restores to. */
  function RestoredContent(atoms: seq<Atom>, table: seq<Hidden>): string
    requires AtomsOk(atoms, |table|)
  {
    if atoms == [] then "" else RestoredAtom(atoms[0], table) + RestoredContent(atoms[1..], table)
  }

  lemma {:induction false} RestoredContentJoin(a: seq<Atom>, b: seq<Atom>, table: seq<Hidden>)
    requires AtomsOk(a, |table|) && AtomsOk(b, |table|)
    ensures AtomsOk(a + b, |table|)
    ensures RestoredContent(a + b, table) == RestoredContent(a, table) + RestoredContent(b, table)
    decreases |a|
  {
    AtomsJoin(a, b, |table|);
    if a == [] {
      assert a + b == b;
    } else {
      assert (a + b)[0] == a[0] && (a + b)[1..] == a[1..] + b;
      RestoredContentJoin(a[1..], b, table);
    }
  }

  lemma {:induction false} RestoredMarks(ch: char, n: nat, table: seq<Hidden>)
    ensures var atoms := seq(n, _ => One(ch)); AtomsOk(atoms, |table|) && RestoredContent(atoms, table) == Copies(ch, n)
    decreases n
  {
    var atoms := seq(n, _ => One(ch));
    if n > 0 {
      RestoredMarks(ch, n - 1, table);
      assert atoms[1..] == seq(n - 1, _ => One(ch));
      assert Copies(ch, n) == [ch] + Copies(ch, n - 1);
    }
  }

  lemma RestoredWhole(text: string, table: seq<Hidden>)
    requires RefsOk(Cut(text), |table|)
    ensures AtomsOk([Whole(text)], |table|) && RestoredContent([Whole(text)], table) == Restore(text, table)
  {
    NoTail(Restore(text, table));
  }

  /** What a single token restores to. */
  function RestoredToken(t: Tok, table: seq<Hidden>): string
    requires TextOk(t, |table|)
  {
    match t
    case Text(text) => Restore(text, table)
    case Marker(_, ch, size, _, _, disabled) => if disabled then "" else Copies(ch, size)
  }

  lemma TokenRestores(t: Tok, table: seq<Hidden>)
    requires TextOk(t, |table|)
    ensures AtomsOk(ContentOf(t), |table|) && RestoredContent(ContentOf(t), table) == RestoredToken(t, table)
  {
    match t
    case Text(text) => RestoredWhole(text, table);
    case Marker(_, ch, size, _, _, disabled) => RestoredMarks(ch, size, table);
  }

  /** The restored tokens, joined. */
  function RestoredTokens(s: seq<Tok>, table: seq<Hidden>): string
    requires TextsOk(s, |table|)
  {
    if s == [] then "" else RestoredToken(s[0], table) + RestoredTokens(s[1..], table)
  }

  lemma {:induction false} TokensRestore(s: seq<Tok>, table: seq<Hidden>)
    requires TextsOk(s, |table|)
    ensures AtomsOk(Content(s), |table|) && RestoredContent(Content(s), table) == RestoredTokens(s, table)
    decreases |s|
  {
    ContentTexts(s, |table|);
    if s != [] {
      TokensRestore(s[1..], table);
      TokenRestores(s[0], table);
      RestoredContentJoin(ContentOf(s[0]), Content(s[1..]), table);
    }
  }

  lemma {:induction false} RestoredTokensJoin(a: seq<Tok>, b: seq<Tok>, table: seq<Hidden>)
    requires TextsOk(a, |table|) && TextsOk(b, |table|)
    ensures TextsOk(a + b, |table|) && RestoredTokens(a + b, table) ==
              RestoredTokens(a, table) + RestoredTokens(b, table)
    decreases |a|
  {
    TextsJoin(a, b, |table|);
    if a == [] {
      assert a + b == b;
    } else {
      assert (a + b)[0] == a[0] && (a + b)[1..] == a[1..] + b;
      RestoredTokensJoin(a[1..], b, table);
    }
  }

  lemma OneToken(t: Tok, table: seq<Hidden>)
    requires TextOk(t, |table|)
    ensures TextsOk([t], |table|) && RestoredTokens([t], table) == RestoredToken(t, table)
  {
    NoTail(RestoredToken(t, table));
    assert [t][1..] == [];
  }

  lemma EmptyText(table: seq<Hidden>)
    ensures WellFormed("", |table|) && RefsOk(Cut(""), |table|) && Restore("", table) == ""
  {
    PlainText("", table);
  }

  lemma RestoredTextIf(text: string, table: seq<Hidden>)
    requires RefsOk(Cut(text), |table|)
    ensures TextsOk(TextIf(text), |table|) && RestoredTokens(TextIf(text), table) == Restore(text, table)
  {
    if text == "" {
      EmptyText(table);
    } else {
      OneToken(Text(text), table);
    }
  }

  /** What a run restores to once it is a marker: its first character, repeated. */
  function Levelled(run: string): string
    requires run != ""
  {
    Copies(run[0], |run|)
  }

  lemma PureIsLevelled(run: string)
    requires run != ""
    ensures Levelled(run) == run <==> Pure(run)
  {
    if Levelled(run) == run {
      assert forall i :: 0 <= i < |run| ==> run[i] == Levelled(run)[i];
    }
  }

  lemma RestoredMarker(open: bool, run: string, table: seq<Hidden>)
    requires IsRun(run)
    ensures TextsOk([MarkerOf(open, run)], |table|) && RestoredTokens([MarkerOf(open, run)], table) == Levelled(run)
  {
    OneToken(MarkerOf(open, run), table);
  }

  /** What the tokens of a match restore to. */
  lemma HitRestores(h: RunHit, table: seq<Hidden>)
    requires !h.NoRun? && IsRun(h.run) && RefsOk(Cut(h.pre), |table|) && (h.Word? ==> RefsOk(Cut(h.contents), |table|))
    ensures TextsOk(TokensOf(h), |table|)
    ensures h.Run? ==> RestoredTokens(TokensOf(h), table) == Restore(h.pre, table) + Levelled(h.run)
    ensures h.Word? ==> RestoredTokens(TokensOf(h), table) ==
                        Restore(h.pre, table) + (Levelled(h.run) + (Restore(h.contents, table) + Levelled(h.run)))
  {
    RestoredTextIf(h.pre, table);
    if h.Run? {
      RestoredMarker(h.open, h.run, table);
      RestoredTokensJoin(TextIf(h.pre), [MarkerOf(h.open, h.run)], table);
    } else {
      var opener, closer, text := [MarkerOf(true, h.run)], [MarkerOf(false, h.run)], [Text(h.contents)];
      RestoredMarker(true, h.run, table);
      RestoredMarker(false, h.run, table);
      OneToken(Text(h.contents), table);
      RestoredTokensJoin(text, closer, table);
      RestoredTokensJoin(opener, text + closer, table);
      RestoredTokensJoin(TextIf(h.pre), opener + (text + closer), table);
    }
  }

  lemma SameParts(a: string, b: string, x: string, y: string)
    requires |a| == |b|
    ensures a + x == b + y <==> a == b && x == y
  {
    if a + x == b + y {
      assert (a + x)[..|a|] == a && (b + y)[..|b|] == b;
      assert (a + x)[|a|..] == x && (b + y)[|b|..] == y;
    }
  }

  lemma RunSame(p: string, l: string, run: string, x: string, y: string)
    requires |l| == |run|
    ensures (p + l) + x == p + (run + y) <==> l == run && x == y
    ensures |x| == |y| ==> |(p + l) + x| == |p + (run + y)|
  {
    assert p + (run + y) == (p + run) + y;
    SameParts(p + l, p + run, x, y);
    SameParts(p, p, l, run);
  }

  lemma WordSame(p: string, l: string, run: string, c: string, x: string, y: string)
    requires |l| == |run|
    ensures (p + (l + (c + l))) + x == p + (run + (c + (run + y))) <==> l == run && x == y
    ensures |x| == |y| ==> |(p + (l + (c + l))) + x| == |p + (run + (c + (run + y)))|
  {
    assert p + (run + (c + (run + y))) == (p + (run + (c + run))) + y;
    SameParts(p + (l + (c + l)), p + (run + (c + run)), x, y);
    SameParts(p, p, l + (c + l), run + (c + run));
    SameParts(l, run, c + l, c + run);
    SameParts(c, c, l, run);
  }

  /** A match gives its text back if and only if it does not mix the characters. */
  lemma HitComesBack(h: RunHit, x: string, y: string, table: seq<Hidden>)
    requires !h.NoRun? && IsRun(h.run) && WellFormed(Taken(h), |table|)
    requires RefsOk(Cut(h.rest), |table|) && y == Restore(h.rest, table)
    ensures TextsOk(TokensOf(h), |table|) && RefsOk(Cut(Taken(h)), |table|)
    ensures |x| == |y| ==> |RestoredTokens(TokensOf(h), table) + x| == |Restore(Taken(h), table)|
    ensures RestoredTokens(TokensOf(h), table) + x == Restore(Taken(h), table) <==> Pure(h.run) && x == y
  {
    HitParts(h, table);
    HitRestores(h, table);
    PureIsLevelled(h.run);
    var p, l := Restore(h.pre, table), Levelled(h.run);
    if h.Run? {
      RunSame(p, l, h.run, x, y);
    } else {
      WordSame(p, l, h.run, Restore(h.contents, table), x, y);
    }
  }

  lemma {:induction false} TokenizedComesBack(find: string -> RunHit, s: string, table: seq<Hidden>)
    requires FindsRuns(find) && WellFormed(s, |table|)
    ensures TextsOk(Tokenize(find, s), |table|) && RefsOk(Cut(s), |table|)
    ensures |RestoredTokens(Tokenize(find, s), table)| == |Restore(s, table)|
    ensures RestoredTokens(Tokenize(find, s), table) == Restore(s, table) <==> PureRuns(find, s)
    decreases |s|
  {
    WellFormedRefsOk(s, |table|);
    TokenizeTextsOk(find, s, table);
    var h := find(s);
    if h.NoRun? {
      RestoredTextIf(s, table);
    } else {
      HitParts(h, table);
      TokenizedComesBack(find, h.rest, table);
      HitComesBack(h, RestoredTokens(Tokenize(find, h.rest), table), Restore(h.rest, table), table);
      RestoredTokensJoin(TokensOf(h), Tokenize(find, h.rest), table);
    }
  }

  /** Resolving keeps what the tokens restore to. */
  lemma ResolvedRestores(s: seq<Tok>, table: seq<Hidden>)
    requires Untouched(s) && AllSane(s) && Walk(s, 0).Some? && TextsOk(s, |table|)
    ensures TextsOk(Resolve(s), |table|) && RestoredTokens(Resolve(s), table) == RestoredTokens(s, table)
  {
    BothPasses(s);
    ResolvedTextsOk(s, |table|);
    TokensRestore(s, table);
    TokensRestore(Resolve(s), table);
  }

  /** A word between mixed runs comes back between runs of their first character. */
  lemma MixedWord(find: string -> RunHit, s: string, h: RunHit)
    requires FindsRuns(find) && h.Word? && find(s) == h && find(h.rest).NoRun?
    requires MARK !in h.pre && MARK !in h.contents && MARK !in h.rest
    ensures TextsOk(Tokenize(find, s), 0)
    ensures RestoredTokens(Tokenize(find, s), []) ==
            (h.pre + (Levelled(h.run) + (h.contents + Levelled(h.run)))) + h.rest
  {
    RestoredPlain(h.pre);
    RestoredPlain(h.contents);
    RestoredPlain(h.rest);
    HitRestores(h, []);
    RestoredTextIf(h.rest, []);
    RestoredTokensJoin(TokensOf(h), TextIf(h.rest), []);
  }

  /** A text with a mixed run, and a matcher that finds it. */
  lemma MixedRunExample() returns (find: string -> RunHit)
    ensures FindsRuns(find) && !PureRuns(find, "*_a*_") && TextsOk(Tokenize(find, "*_a*_"), 0)
    ensures RestoredTokens(Tokenize(find, "*_a*_"), []) == "**a**"
  {
    var s := "*_a*_";
    find := t => if t == s then Word("", "*_", "a", "") else NoRun;
    assert Taken(Word("", "*_", "a", "")) == s;
    assert find("").NoRun?;
    assert "*_"[1] != "*_"[0];
    MixedWord(find, s, find(s));
    assert Copies('*', 2) == "**";
  }
}
