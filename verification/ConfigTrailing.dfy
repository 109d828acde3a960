/** What the lexer drops at the end of a file: a word that is not closed by anything is reported as
    the end of the file, so the parser never sees it. */
module ConfigTrailing {
  import opened Wrappers
  import opened ConfigLexer
  import opened ConfigTree
  import opened ConfigAutomaton
  import opened ConfigGrammar
  import opened ConfigRoundTrip

  /** The text that the last call of the lexer has in front of it. */
  function LastText(s: string): (t: string)
    ensures IsLast(Lex(t).kind)
    decreases |s|
  {
    LexConsumes(s);
    if IsLast(Lex(s).kind) then s else LastText(Lex(s).rest)
  }

  /** The last call reports the end of the file although it has read a word. */
  predicate DropsWord(s: string) {
    var l := Lex(LastText(s));
    l.kind == Eof && l.value != "" && l.value[0] != '#'
  }

  // ---------------------------------------------------------------- lexing a longer text

  lemma SpanExtended(s: string, p: Stopper, x: string)
    ensures Span(s, p) < |s| ==> Span(s + x, p) == Span(s, p)
  {
    var k := Span(s, p);
    if k < |s| {
      var all := s + x;
      assert forall i :: 0 <= i <= k ==> all[i] == s[i];
      SpanIs(all, p, k);
    }
  }

  lemma CutExtended(t: string, p: Stopper, x: string)
    ensures var k := Span(t, p);
            k < |t| ==> Span(t + x, p) == k && (t + x)[..k] == t[..k] && (t + x)[..k + 1] == t[..k + 1]
                        && (t + x)[k..] == t[k..] + x && (t + x)[k + 1..] == t[k + 1..] + x
  {
    SpanExtended(t, p, x);
  }

  function Longer(l: Lexeme, x: string): Lexeme {
    l.(rest := l.rest + x)
  }

  lemma QuoteExtended(q: char, value: string, t: string, x: string)
    ensures InQuote(q, value, t).kind == Normal ==> InQuote(q, value, t + x) == Longer(InQuote(q, value, t), x)
  {
    CutExtended(t, AtQuote(q), x);
  }

  lemma CommentExtended(value: string, t: string, x: string)
    ensures InCommentLine(value, t).kind == Comment ==>
              InCommentLine(value, t + x) == Longer(InCommentLine(value, t), x)
  {
    CutExtended(t, AtLineEnd, x);
  }

  lemma WordExtended(value: string, t: string, x: string)
    ensures InPlainWord(value, t).kind == Normal ==> InPlainWord(value, t + x) == Longer(InPlainWord(value, t), x)
  {
    CutExtended(t, AtWordEnd, x);
  }

  lemma HeadExtended(s: string, x: string)
    requires s != ""
    ensures (s + x)[0] == s[0] && (s + x)[..1] == s[..1] && (s + x)[1..] == s[1..] + x
  {
  }

  lemma LexAtExtended(s: string, x: string)
    requires !IsLast(LexAt(s).kind)
    ensures LexAt(s + x) == Longer(LexAt(s), x)
  {
    HeadExtended(s, x);
    if s[0] == '"' || s[0] == '\'' {
      QuoteExtended(s[0], s[..1], s[1..], x);
    } else if s[0] == '#' {
      CommentExtended(s[..1], s[1..], x);
    } else if s[0] != '{' && s[0] != '}' && s[0] != ';' {
      WordExtended(s[..1], s[1..], x);
    }
  }

  lemma LexExtended(s: string, x: string)
    requires !IsLast(Lex(s).kind)
    ensures Lex(s + x) == Longer(Lex(s), x)
  {
    CutExtended(s, AtNonSpace, x);
    var k := Span(s, AtNonSpace);
    assert k < |s|;
    LexAtExtended(s[k..], x);
  }

  lemma LastStep(s: string)
    requires !IsLast(Lex(s).kind)
    ensures |Lex(s).rest| < |s| && LastText(s) == LastText(Lex(s).rest)
  {
    LexConsumes(s);
  }

  lemma ScanStep(s: string)
    requires !IsLast(Lex(s).kind)
    ensures |Lex(s).rest| < |s|
    ensures Scan(s) == if Lex(s).kind == Comment then Scan(Lex(s).rest)
              else Prepend([TokenOf(Lex(s))], Scan(Lex(s).rest))
  {
    LexConsumes(s);
  }

  lemma ScanLonger(all: string, l: Lexeme, rest: string)
    requires !IsLast(l.kind) && Lex(all) == l.(rest := rest)
    ensures Scan(all) == if l.kind == Comment then Scan(rest) else Prepend([TokenOf(l)], Scan(rest))
  {
    ScanStep(all);
  }

  /** A longer text has the same tokens up to the last call, which now sees more. */
  lemma {:induction false} ScanExtended(s: string, x: string)
    ensures Scan(s + x) == Prepend(Scan(s).tokens, Scan(LastText(s) + x))
    ensures Scan(s).clean <==> Lex(LastText(s)).kind == Eof
    decreases |s|
  {
    if !IsLast(Lex(s).kind) {
      var rest := Lex(s).rest;
      ScanStep(s);
      LastStep(s);
      LexExtended(s, x);
      ScanLonger(s + x, Lex(s), rest + x);
      ScanExtended(rest, x);
      if Lex(s).kind != Comment {
        PrependPrepend([TokenOf(Lex(s))], Scan(rest).tokens, Scan(LastText(s) + x));
      }
    }
  }

  // ---------------------------------------------------------------- a line end closes the word

  /** Behind the white space at the start. */
  function Trimmed(t: string): string {
    t[Span(t, AtNonSpace)..]
  }

  lemma {:induction false} LexTrims(t: string, x: string)
    requires Trimmed(t) != ""
    ensures Lex(t + x) == LexAt(Trimmed(t) + x)
  {
    CutExtended(t, AtNonSpace, x);
  }

  lemma {:induction false} ScanBlank(t: string, x: string)
    requires Trimmed(t) == ""
    ensures Scan(t + x) == Scan(x)
    decreases |t|
  {
    if t == "" {
      assert t + x == x;
    } else {
      assert t == [t[0]] + t[1..];
      assert t + x == [t[0]] + (t[1..] + x);
      assert Span(t, AtNonSpace) == |t|;
      assert Trimmed(t[1..]) == "";
      ScanSpace(t[0], t[1..] + x);
      ScanBlank(t[1..], x);
    }
  }

  lemma ScanLineEnd()
    ensures Scan(['\n']) == Scanned([], true)
  {
    ScanSpace('\n', "");
    assert ['\n'] + "" == ['\n'];
    assert Scan("") == Scanned([], true);
  }

  lemma ClosedAt(v: string, p: Stopper)
    requires Span(v, p) == |v| && Stops(p, '\n')
    ensures var all := v + ['\n'];
            Span(all, p) == |v| && all[..|v|] == v && all[|v|..] == ['\n'] && all[|v| + 1..] == ""
  {
    var all := v + ['\n'];
    assert forall i :: 0 <= i < |v| ==> all[i] == v[i];
    SpanIs(all, p, |v|);
  }

  /** The word or comment that runs into the end of the file, and what a line end makes of it. */
  lemma WordClosed(u: string)
    requires u != "" && !IsSpace(u[0]) && u[0] != '#' && LexAt(u).kind == Eof
    ensures LexAt(u) == Lexeme(Eof, u, "") && LexAt(u + ['\n']) == Lexeme(Normal, u, ['\n'])
  {
    HeadExtended(u, ['\n']);
    ClosedAt(u[1..], AtWordEnd);
    assert u == u[..1] + u[1..];
  }

  lemma CommentClosed(u: string)
    requires u != "" && u[0] == '#' && LexAt(u).kind == Eof
    ensures LexAt(u) == Lexeme(Eof, u, "") && LexAt(u + ['\n']) == Lexeme(Comment, u, "")
  {
    HeadExtended(u, ['\n']);
    ClosedAt(u[1..], AtLineEnd);
    assert u == u[..1] + u[1..];
  }

  /** What the last call makes of its text once a line end follows. */
  lemma LastClosed(t: string)
    requires Lex(t).kind == Eof
    ensures Scan(t + ['\n']) ==
            Scanned(if Lex(t).value != "" && Lex(t).value[0] != '#' then [Word(Lex(t).value)] else [], true)
  {
    var u, closed := Trimmed(t), t + ['\n'];
    ScanLineEnd();
    if u == "" {
      ScanBlank(t, ['\n']);
    } else {
      LexTrims(t, ['\n']);
      assert !IsSpace(u[0]);
      if u[0] == '#' {
        CommentClosed(u);
        ScanStep(closed);
        assert Scan("") == Scanned([], true);
      } else {
        WordClosed(u);
        ScanStep(closed);
      }
    }
  }

  /** Closing a text with a line end brings back the dropped word and nothing else. */
  lemma LineEndCloses(s: string)
    requires Scan(s).clean
    ensures Scan(s + ['\n']) ==
            Scanned(Scan(s).tokens + (if DropsWord(s) then [Word(Lex(LastText(s)).value)] else []), true)
  {
    ScanExtended(s, ['\n']);
    LastClosed(LastText(s));
  }

  lemma YieldEnds(ss: seq<Statement>)
    requires ss != []
    ensures Yield(ss) != [] && !Yield(ss)[|Yield(ss)| - 1].Word?
  {
  }

  lemma SameTokens(a: string, b: string)
    requires Scan(a) == Scan(b) && Scan(a).clean
    ensures ParseText(Init([]), a) == ParseText(Init([]), b)
  {
    ParsesItsTokens(Init([]), a);
    ParsesItsTokens(Init([]), b);
  }

  /** Exactly where an accepted text loses a word: it is still accepted with a line end behind it, and
      then with the same tree, if and only if the last call of the lexer drops no word. */
  lemma NothingDropped(s: string)
    ensures var out, closed := ParseText(Init([]), s), ParseText(Init([]), s + ['\n']);
            out.accepted ==> (closed.accepted <==> !DropsWord(s)) && (closed.accepted ==> closed == out)
  {
    if ParseText(Init([]), s).accepted {
      AcceptedIsPrintable(s);
      LineEndCloses(s);
      if DropsWord(s) {
        if ParseText(Init([]), s + ['\n']).accepted {
          AcceptedIsPrintable(s + ['\n']);
          YieldEnds(ParseText(Init([]), s + ['\n']).tree);
        }
      } else {
        assert Scan(s).tokens + [] == Scan(s).tokens;
        SameTokens(s + ['\n'], s);
      }
    }
  }

  predicate EndsWith(s: string, t: string) {
    |t| <= |s| && t == s[|s| - |t|..]
  }

  lemma EndOfEnd(s: string, a: string, b: string)
    requires EndsWith(s, a) && EndsWith(a, b)
    ensures EndsWith(s, b)
  {
  }

  lemma RestIsEnd(s: string)
    requires !IsLast(Lex(s).kind)
    ensures |Lex(s).rest| < |s| && EndsWith(s, Lex(s).rest)
  {
    LexConsumes(s);
  }

  lemma LastIsItself(s: string)
    requires IsLast(Lex(s).kind)
    ensures EndsWith(s, LastText(s))
  {
  }

  lemma {:induction false} LastTextIsEnd(s: string)
    ensures EndsWith(s, LastText(s))
    decreases |s|
  {
    if IsLast(Lex(s).kind) {
      LastIsItself(s);
    } else {
      RestIsEnd(s);
      LastStep(s);
      LastTextIsEnd(Lex(s).rest);
      EndOfEnd(s, Lex(s).rest, LastText(s));
    }
  }

  /** Neither a plain word nor a comment runs over a line end. */
  lemma LineEndStops(u: string)
    requires u != "" && !IsSpace(u[0]) && u[|u| - 1] == '\n'
    ensures LexAt(u).kind != Eof
  {
    var v := u[1..];
    assert v[|v| - 1] == '\n';
  }

  lemma NothingAtEnd(t: string)
    requires t != "" ==> t[|t| - 1] == '\n'
    ensures Lex(t).kind == Eof ==> Lex(t).value == ""
  {
    var u := Trimmed(t);
    if u != "" {
      LineEndStops(u);
    }
  }

  lemma LastCharacter(s: string, t: string)
    requires EndsWith(s, t) && t != ""
    ensures t[|t| - 1] == s[|s| - 1]
  {
  }

  /** A condition that can be read off the file: one that ends with a line end loses no word. */
  lemma LineEndSaves(s: string)
    requires s != "" && s[|s| - 1] == '\n'
    ensures !DropsWord(s)
  {
    var t := LastText(s);
    LastTextIsEnd(s);
    if t != "" {
      LastCharacter(s, t);
    }
    NothingAtEnd(t);
  }

  lemma {:induction false} OpenWord(w: string)
    requires PlainWord(w)
    ensures Scan(w) == Scanned([], true)
  {
    var v := w[1..];
    LexAtNonSpace(w);
    assert forall i :: 0 <= i < |v| ==> !Stops(AtWordEnd, v[i]);
    assert !Stops(AtWordEnd, w[0]);
    assert Lex(w).kind == Eof;
  }

  lemma BlankEnd(t: string)
    requires Lex(t).kind == Eof && Lex(t).value == ""
    ensures Trimmed(t) == ""
  {
  }

  /** A word behind an accepted text, with nothing to close it, is dropped silently: the parser gives
      the same verdict and the same tree without it. */
  lemma TrailingWordDropped(s: string, w: string)
    requires ParseText(Init([]), s).accepted && Lex(LastText(s)).value == "" && PlainWord(w)
    ensures ParseText(Init([]), s + w) == ParseText(Init([]), s)
  {
    AcceptedIsPrintable(s);
    ScanExtended(s, w);
    BlankEnd(LastText(s));
    ScanBlank(LastText(s), w);
    OpenWord(w);
    assert Scan(s).tokens + [] == Scan(s).tokens;
    SameTokens(s + w, s);
  }

  lemma OneStatement(s: string, w: string)
    requires Scan(s) == Scanned([Word(w), Semicolon], true)
    ensures ParseText(Init([]), s) == Done(true, [Statement([w], None)])
  {
    var st := Statement([w], None);
    assert [st][..0] == [];
    assert Yield([st]) == Yield([]) + StatementYield(st) == [Word(w), Semicolon];
    ParsesItsTokens(Init([]), s);
    AcceptsExactlyTheGrammar([Word(w), Semicolon], [st]);
  }

  lemma WordAndOpenWord(w: string, v: string)
    requires Lexable(w) && PlainWord(v)
    ensures ParseText(Init([]), w + ([';'] + v)) == Done(true, [Statement([w], None)])
  {
    ScanWord(w, [';'] + v);
    ScanMark(';', StatementEnd, Semicolon, v);
    OpenWord(v);
    OneStatement(w + ([';'] + v), w);
  }

  /** The shortest text that loses a word. */
  lemma TrailingWordExample()
    ensures ParseText(Init([]), "a;b") == Done(true, [Statement(["a"], None)])
  {
    WordAndOpenWord("a", "b");
    assert "a;b" == "a" + ([';'] + "b");
  }
}
