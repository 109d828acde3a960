/** What a comment is: everything from the number sign to the end of its line, and nothing else. */
module ConfigComments {
  import opened ConfigLexer
  import opened ConfigAutomaton
  import opened ConfigRoundTrip
  import opened ConfigTrailing

  predicate OneLine(c: string) {
    '\n' !in c && '\r' !in c
  }

  /** A number sign, text up to a line end, and what follows. */
  function Commented(c: string, e: char, rest: string): string {
    ['#'] + (c + ([e] + rest))
  }

  lemma LexComment(c: string, e: char, rest: string)
    requires OneLine(c) && (e == '\n' || e == '\r')
    ensures Lex(Commented(c, e, rest)) == Lexeme(Comment, ['#'] + c, rest)
  {
    var s, t := Commented(c, e, rest), c + ([e] + rest);
    LexAtNonSpace(s);
    assert s[..1] == ['#'] && s[1..] == t;
    assert forall i :: 0 <= i < |c| ==> t[i] == c[i];
    SpanIs(t, AtLineEnd, |c|);
    assert t[..|c|] == c && t[|c| + 1..] == rest;
  }

  /** Wherever the parser stands, a comment that ends with its line changes nothing. */
  lemma CommentIsSkipped(st: Parse, c: string, e: char, rest: string)
    requires Inv(st) && OneLine(c) && (e == '\n' || e == '\r')
    ensures ParseText(st, Commented(c, e, rest)) == ParseText(st, rest)
  {
    LexComment(c, e, rest);
  }

  lemma LexOpenComment(c: string)
    requires OneLine(c)
    ensures Lex(['#'] + c) == Lexeme(Eof, ['#'] + c, "")
  {
    var s := ['#'] + c;
    LexAtNonSpace(s);
    assert s[..1] == ['#'] && s[1..] == c;
    SpanIs(c, AtLineEnd, |c|);
  }

  /** A comment that runs into the end of the file is the end of the file. */
  lemma OpenCommentIsTheEnd(st: Parse, c: string)
    requires Inv(st) && OneLine(c)
    ensures ParseText(st, ['#'] + c) == ParseText(st, "")
  {
    LexOpenComment(c);
    assert Lex("").kind == Eof;
  }

  lemma ScanComment(c: string, e: char, rest: string)
    requires OneLine(c) && (e == '\n' || e == '\r')
    ensures Scan(Commented(c, e, rest)) == Scan(rest)
  {
    LexComment(c, e, rest);
  }

  /** A text whose last word is closed: only white space stands behind it. */
  predicate WordsClosed(s: string) {
    Trimmed(LastText(s)) == ""
  }

  lemma ScanBehind(s: string, x: string)
    requires WordsClosed(s)
    ensures Scan(s + x) == Prepend(Scan(s).tokens, Scan(x))
  {
    ScanExtended(s, x);
    ScanBlank(LastText(s), x);
  }

  lemma SameVerdict(st: Parse, a: string, b: string)
    requires Inv(st) && Scan(a) == Scan(b)
    ensures ParseText(st, a).accepted == ParseText(st, b).accepted
    ensures ParseText(st, a).accepted ==> ParseText(st, a) == ParseText(st, b)
  {
    ParsesItsTokens(st, a);
    ParsesItsTokens(st, b);
  }

  /** A comment may be put behind any text whose last word is closed, up to the end of its line: the
      verdict is the same and so is the tree of an accepted text. */
  lemma CommentAnywhere(st: Parse, s: string, c: string, e: char, rest: string)
    requires Inv(st) && WordsClosed(s) && OneLine(c) && (e == '\n' || e == '\r')
    ensures var with, without := ParseText(st, s + Commented(c, e, rest)), ParseText(st, s + rest);
            with.accepted == without.accepted && (with.accepted ==> with == without)
  {
    ScanBehind(s, Commented(c, e, rest));
    ScanBehind(s, rest);
    ScanComment(c, e, rest);
    SameVerdict(st, s + Commented(c, e, rest), s + rest);
  }

  /** A quotation mark that is never closed behind such a text is an error, whatever follows. */
  lemma OpenQuoteIsRejected(st: Parse, s: string, q: char, v: string)
    requires Inv(st) && WordsClosed(s) && (q == '"' || q == '\'') && q !in v
    ensures !ParseText(st, s + ([q] + v)).accepted
  {
    var t := [q] + v;
    ScanBehind(s, t);
    LexAtNonSpace(t);
    assert t[..1] == [q] && t[1..] == v;
    SpanIs(v, AtQuote(q), |v|);
    ParsesItsTokens(st, s + t);
  }

  /** The plain words by their characters. */
  lemma PlainWords(t: string)
    ensures PlainWord(t) <==>
            t != "" && t[0] !in ['\r', '#', '"', '\''] &&
                forall c :: c in t ==> c !in [' ', '\t', '\n', ';', '{', '}']
  {
    if t != "" {
      assert t[0] in t;
    }
    assert forall i :: 0 <= i < |t| ==> t[i] in t;
  }

  /** The characters that a lexeme accounts for. */
  function Size(l: Lexeme): nat {
    |l.value| + |l.rest| + (if l.kind == Comment then 1 else 0)
  }

  lemma LexAtSize(t: string)
    ensures Size(LexAt(t)) == |t|
  {
  }

  lemma LexSize(s: string)
    ensures Size(Lex(s)) <= |s|
  {
    LexAtSize(s[Span(s, AtNonSpace)..]);
  }

  /** The white space that is skipped in front of a token are these four characters. */
  lemma SkipsSpace(c: char, rest: string)
    ensures Lex([c] + rest) == Lex(rest) <==> c in [' ', '\t', '\n', '\r']
  {
    var s := [c] + rest;
    if IsSpace(c) {
      LexSkipsSpace(s);
      assert s[1..] == rest;
    } else {
      LexAtNonSpace(s);
      LexAtSize(s);
      LexSize(rest);
    }
  }
}
