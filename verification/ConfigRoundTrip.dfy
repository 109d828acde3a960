/** From text to tree and back: the parser on whole texts, and the printer as its inverse. */
module ConfigRoundTrip {
  import opened Wrappers
  import opened ConfigLexer
  import opened ConfigTree
  import opened ConfigAutomaton
  import opened ConfigGrammar

  function TokenOf(l: Lexeme): Token
    requires !IsLast(l.kind) && l.kind != Comment
  {
    match l.kind
    case StatementEnd => Semicolon
    case StartBlock => BlockOpen
    case EndBlock => BlockClose
    case _ => Word(l.value)
  }

  /** The parser's loop over the unread text `s`. */
  function ParseText(st: Parse, s: string): (out: Outcome)
    requires Inv(st)
    ensures out.Done?
    decreases |s|
  {
    var l := Lex(s);
    LexConsumes(s);
    if l.kind == Error then Reject(st)
    else if l.kind == Eof then OnEof(st)
    else if l.kind == Comment then ParseText(st, l.rest)
    else
      StepKeepsInv(st, TokenOf(l));
      var next := Step(st, TokenOf(l));
      if next.Continue? then ParseText(next.state, l.rest) else next
  }

  /** The comment-free tokens of a text, and whether it lexes to its end. */
  datatype Scanned = Scanned(tokens: seq<Token>, clean: bool)

  function Scan(s: string): Scanned
    decreases |s|
  {
    var l := Lex(s);
    LexConsumes(s);
    if IsLast(l.kind) then Scanned([], l.kind == Eof)
    else if l.kind == Comment then Scan(l.rest)
    else
      var rest := Scan(l.rest);
      Scanned([TokenOf(l)] + rest.tokens, rest.clean)
  }

  lemma RejectsAtOnce(st: Parse, t: Token)
    requires Inv(st)
    ensures Step(st, t).Done? ==> !Step(st, t).accepted
  {
  }

  lemma {:induction false} ParsesItsTokens(st: Parse, s: string)
    requires Inv(st)
    ensures ParseText(st, s).accepted == (Scan(s).clean && Run(st, Scan(s).tokens).accepted)
    ensures Scan(s).clean ==> ParseText(st, s) == Run(st, Scan(s).tokens)
    decreases |s|
  {
    var l := Lex(s);
    LexConsumes(s);
    if l.kind == Comment {
      ParsesItsTokens(st, l.rest);
    } else if !IsLast(l.kind) {
      var t := TokenOf(l);
      StepKeepsInv(st, t);
      assert Scan(s).tokens[1..] == Scan(l.rest).tokens;
      if Step(st, t).Continue? {
        ParsesItsTokens(Step(st, t).state, l.rest);
      } else {
        RejectsAtOnce(st, t);
      }
    }
  }

  lemma LexNeverStarts(s: string)
    ensures Lex(s).kind != Start
  {
  }

  lemma {:induction false} ScannedWordsAreLexable(s: string)
    ensures forall t :: t in Scan(s).tokens && t.Word? ==> Lexable(t.text)
    decreases |s|
  {
    var l := Lex(s);
    LexConsumes(s);
    if !IsLast(l.kind) {
      ScannedWordsAreLexable(l.rest);
      if l.kind == Normal {
        LexedWordIsLexable(s);
      }
      LexNeverStarts(s);
    }
  }

  // ---------------------------------------------------------------- scanning printed text

  function Prepend(ts: seq<Token>, r: Scanned): Scanned {
    Scanned(ts + r.tokens, r.clean)
  }

  lemma PrependPrepend(a: seq<Token>, b: seq<Token>, r: Scanned)
    ensures Prepend(a, Prepend(b, r)) == Prepend(a + b, r)
  {
    assert a + (b + r.tokens) == a + b + r.tokens;
  }

  lemma ScanSkips(s: string)
    requires s != "" && IsSpace(s[0])
    ensures Scan(s) == Scan(s[1..])
  {
    LexSkipsSpace(s);
  }

  lemma ScanSpace(c: char, rest: string)
    requires IsSpace(c)
    ensures Scan([c] + rest) == Scan(rest)
  {
    ScanSkips([c] + rest);
    assert ([c] + rest)[1..] == rest;
  }

  lemma {:induction false} ScanIndent(depth: nat, rest: string)
    ensures Scan(Indent(depth) + rest) == Scan(rest)
  {
    if depth == 0 {
      assert Indent(depth) + rest == rest;
    } else {
      assert Indent(depth) + rest == ['\t'] + (Indent(depth - 1) + rest);
      ScanSpace('\t', Indent(depth - 1) + rest);
      ScanIndent(depth - 1, rest);
    }
  }

  predicate Marks(c: char, kind: TokenType, t: Token) {
    || (c == ';' && kind == StatementEnd && t == Semicolon)
    || (c == '{' && kind == StartBlock && t == BlockOpen)
    || (c == '}' && kind == EndBlock && t == BlockClose)
  }

  lemma LexMark(c: char, kind: TokenType, t: Token, rest: string)
    requires Marks(c, kind, t)
    ensures Lex([c] + rest) == Lexeme(kind, [c], rest)
  {
    var s := [c] + rest;
    LexAtNonSpace(s);
    assert s[..1] == [c] && s[1..] == rest;
  }

  lemma ScanOne(s: string, t: Token)
    requires !IsLast(Lex(s).kind) && Lex(s).kind != Comment && TokenOf(Lex(s)) == t
    ensures Scan(s) == Prepend([t], Scan(Lex(s).rest))
  {
  }

  lemma ScanMark(c: char, kind: TokenType, t: Token, rest: string)
    requires Marks(c, kind, t)
    ensures Scan([c] + rest) == Prepend([t], Scan(rest))
  {
    LexMark(c, kind, t, rest);
    ScanOne([c] + rest, t);
  }

  lemma ScanWord(t: string, rest: string)
    requires Lexable(t)
    requires rest != "" && Stops(AtWordEnd, rest[0])
    ensures Scan(t + rest) == Prepend([Word(t)], Scan(rest))
  {
    LexReadsWordBack(t, rest);
    ScanOne(t + rest, Word(t));
  }

  lemma Regroup(a: string, b: string, c: string, d: string)
    ensures a + b + c + d == a + (b + (c + d))
  {
  }

  lemma JoinedSnoc(tokens: seq<string>, rest: string)
    requires |tokens| > 1
    ensures var n := |tokens| - 1;
            Joined(tokens) + rest == Joined(tokens[..n]) + ([' '] + (tokens[n] + rest))
  {
    var n := |tokens| - 1;
    Regroup(Joined(tokens[..n]), [' '], tokens[n], rest);
  }

  lemma WordsSnoc(tokens: seq<string>)
    requires tokens != []
    ensures Words(tokens) == Words(tokens[..|tokens| - 1]) + [Word(tokens[|tokens| - 1])]
  {
  }

  lemma {:induction false} ScanJoined(tokens: seq<string>, rest: string)
    requires AllLexable(tokens)
    requires rest != "" && Stops(AtWordEnd, rest[0])
    ensures Scan(Joined(tokens) + rest) == Prepend(Words(tokens), Scan(rest))
    decreases |tokens|
  {
    if tokens == [] {
      assert Joined(tokens) + rest == rest;
    } else {
      var n := |tokens| - 1;
      var t := tokens[n];
      ScanWord(t, rest);
      WordsSnoc(tokens);
      if n == 0 {
        assert Joined(tokens) == t;
        assert Words(tokens[..n]) + [Word(t)] == [Word(t)];
      } else {
        JoinedSnoc(tokens, rest);
        ScanJoined(tokens[..n], [' '] + (t + rest));
        ScanSpace(' ', t + rest);
        PrependPrepend(Words(tokens[..n]), [Word(t)], Scan(rest));
      }
    }
  }

  /** What follows the words of a printed statement. */
  function Tail(child: Option<Config>, depth: nat): string {
    match child
    case Some(block) => " {\n" + Print(block.statements, depth + 1) + Indent(depth) + "}"
    case None => ";"
  }

  function TailYield(child: Option<Config>): seq<Token> {
    match child
    case Some(block) => [BlockOpen] + Yield(block.statements) + [BlockClose]
    case None => [Semicolon]
  }

  lemma PrintedParts(s: Statement, depth: nat, rest: string)
    ensures PrintStatement(s, depth) + rest ==
              Indent(depth) + (Joined(s.tokens) + (Tail(s.child, depth) + (['\n'] + rest)))
    ensures StatementYield(s) == Words(s.tokens) + TailYield(s.child)
  {
    assert PrintStatement(s, depth) == Indent(depth) + Joined(s.tokens) + Tail(s.child, depth) + ['\n'];
    Regroup(Indent(depth) + Joined(s.tokens), Tail(s.child, depth), ['\n'], rest);
    Regroup(Indent(depth), Joined(s.tokens), Tail(s.child, depth) + (['\n'] + rest), []);
    var end := Tail(s.child, depth) + (['\n'] + rest);
    assert end + [] == end && Indent(depth) + (Joined(s.tokens) + end) == Indent(depth) + Joined(s.tokens) + end;
  }

  lemma ScanOpening(rest: string)
    ensures Scan([' '] + (['{'] + (['\n'] + rest))) == Prepend([BlockOpen], Scan(rest))
  {
    ScanSpace(' ', ['{'] + (['\n'] + rest));
    ScanMark('{', StartBlock, BlockOpen, ['\n'] + rest);
    ScanSpace('\n', rest);
  }

  lemma ScanClosing(depth: nat, rest: string)
    ensures Scan(Indent(depth) + (['}'] + rest)) == Prepend([BlockClose], Scan(rest))
  {
    ScanIndent(depth, ['}'] + rest);
    ScanMark('}', EndBlock, BlockClose, rest);
  }

  lemma PrependBlock(ts: seq<Token>, r: Scanned)
    ensures Prepend([BlockOpen], Prepend(ts, Prepend([BlockClose], r))) == Prepend([BlockOpen] + ts + [BlockClose], r)
  {
    PrependPrepend([BlockOpen], ts, Prepend([BlockClose], r));
    PrependPrepend([BlockOpen] + ts, [BlockClose], r);
  }

  lemma OpenTail(body: string, indent: string, rest: string)
    ensures " {\n" + body + indent + "}" + rest
         == [' '] + (['{'] + (['\n'] + (body + (indent + (['}'] + rest)))))
  {
    var end := ['}'] + rest;
    assert " {\n" == [' '] + ['{'] + ['\n'];
    Regroup([' '], ['{'], ['\n'], body + (indent + end));
    Regroup(" {\n", body, indent, end);
    assert " {\n" + body + indent + "}" + rest == " {\n" + body + indent + end;
  }

  lemma {:induction false} ScanPrintedStatement(s: Statement, depth: nat, rest: string)
    requires LexableStatement(s)
    ensures Scan(PrintStatement(s, depth) + rest) == Prepend(StatementYield(s), Scan(rest))
    decreases s, 2
  {
    var end := ['\n'] + rest;
    PrintedParts(s, depth, rest);
    ScanIndent(depth, Joined(s.tokens) + (Tail(s.child, depth) + end));
    assert Tail(s.child, depth) != "" && Stops(AtWordEnd, (Tail(s.child, depth) + end)[0]);
    ScanJoined(s.tokens, Tail(s.child, depth) + end);
    ScanTail(s.child, depth, end);
    ScanSpace('\n', rest);
    PrependPrepend(Words(s.tokens), TailYield(s.child), Scan(rest));
  }

  lemma {:induction false} ScanPrinted(ss: seq<Statement>, depth: nat, rest: string)
    requires LexableTree(ss)
    ensures Scan(Print(ss, depth) + rest) == Prepend(Yield(ss), Scan(rest))
    decreases ss, 0
  {
    if ss == [] {
      assert Print(ss, depth) + rest == rest;
    } else {
      var n := |ss| - 1;
      assert LexableStatement(ss[n]);
      assert Print(ss, depth) + rest == Print(ss[..n], depth) + (PrintStatement(ss[n], depth) + rest);
      ScanPrinted(ss[..n], depth, PrintStatement(ss[n], depth) + rest);
      ScanPrintedStatement(ss[n], depth, rest);
      PrependPrepend(Yield(ss[..n]), StatementYield(ss[n]), Scan(rest));
    }
  }

  lemma {:induction false} ScanTail(child: Option<Config>, depth: nat, rest: string)
    requires child.Some? ==> LexableTree(child.value.statements)
    ensures Scan(Tail(child, depth) + rest) == Prepend(TailYield(child), Scan(rest))
    decreases child, 1
  {
    match child
    case None => ScanMark(';', StatementEnd, Semicolon, rest);
    case Some(block) =>
      var body := Print(block.statements, depth + 1);
      var closing := Indent(depth) + (['}'] + rest);
      OpenTail(body, Indent(depth), rest);
      ScanOpening(body + closing);
      ScanPrinted(block.statements, depth + 1, closing);
      ScanClosing(depth, rest);
      PrependBlock(Yield(block.statements), Scan(rest));
  }

  // ---------------------------------------------------------------- main results

  /** The trees that can be printed and read back. */
  predicate Printable(ss: seq<Statement>) {
    ss != [] && Derivable(ss) && LexableTree(ss)
  }

  lemma AcceptedIsPrintable(s: string)
    requires ParseText(Init([]), s).accepted
    ensures Printable(ParseText(Init([]), s).tree)
    ensures Scan(s) == Scanned(Yield(ParseText(Init([]), s).tree), true)
  {
    var tree := ParseText(Init([]), s).tree;
    ParsesItsTokens(Init([]), s);
    AcceptsExactlyTheGrammar(Scan(s).tokens, tree);
    ScannedWordsAreLexable(s);
    LexableFromYield(tree);
  }

  lemma ScanWholePrint(ss: seq<Statement>, depth: nat)
    requires LexableTree(ss)
    ensures Scan(Print(ss, depth)) == Scanned(Yield(ss), true)
  {
    ScanPrinted(ss, depth, "");
    assert Print(ss, depth) + "" == Print(ss, depth);
    assert Scan("") == Scanned([], true);
  }

  /** Reading a printed tree back gives that tree if and only if the tree is printable,
      whatever depth it was printed at. */
  lemma PrintThenParse(ss: seq<Statement>, depth: nat)
    ensures ParseText(Init([]), Print(ss, depth)) == Done(true, ss) <==> Printable(ss)
  {
    var text := Print(ss, depth);
    if Printable(ss) {
      ScanWholePrint(ss, depth);
      ParsesItsTokens(Init([]), text);
      AcceptsExactlyTheGrammar(Yield(ss), ss);
    }
    if ParseText(Init([]), text) == Done(true, ss) {
      AcceptedIsPrintable(text);
    }
  }

  /** Every accepted text survives being printed and parsed again. */
  lemma ParsePrintParse(s: string, depth: nat)
    ensures var out := ParseText(Init([]), s);
            out.accepted ==> ParseText(Init([]), Print(out.tree, depth)) == out
  {
    if ParseText(Init([]), s).accepted {
      AcceptedIsPrintable(s);
      PrintThenParse(ParseText(Init([]), s).tree, depth);
    }
  }

  /** A text is accepted if and only if it lexes to its end and its tokens are a sentence. */
  lemma AcceptedTexts(s: string)
    ensures ParseText(Init([]), s).accepted <==>
            Scan(s).clean && exists tree :: tree != [] && Derivable(tree) && Scan(s).tokens == Yield(tree)
  {
    ParsesItsTokens(Init([]), s);
    if ParseText(Init([]), s).accepted {
      var tree := ParseText(Init([]), s).tree;
      AcceptsExactlyTheGrammar(Scan(s).tokens, tree);
    }
    if Scan(s).clean && exists tree :: tree != [] && Derivable(tree) && Scan(s).tokens == Yield(tree) {
      var tree :| tree != [] && Derivable(tree) && Scan(s).tokens == Yield(tree);
      AcceptsExactlyTheGrammar(Scan(s).tokens, tree);
    }
  }

  /** Parsing into an object that already holds statements appends to them. */
  lemma {:induction false} ParseIntoUsedTree(base: seq<Statement>, st: Parse, s: string)
    requires Inv(st)
    ensures Inv(Rebase(base, st))
    ensures ParseText(Rebase(base, st), s) == RebaseOutcome(base, ParseText(st, s))
    decreases |s|
  {
    CollapseState(base, st);
    var l := Lex(s);
    LexConsumes(s);
    if l.kind == Comment {
      ParseIntoUsedTree(base, st, l.rest);
    } else if !IsLast(l.kind) {
      var t := TokenOf(l);
      StepRebased(base, st, t);
      StepKeepsInv(st, t);
      if Step(st, t).Continue? {
        ParseIntoUsedTree(base, Step(st, t).state, l.rest);
      }
    }
  }
}
