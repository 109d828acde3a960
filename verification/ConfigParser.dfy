/** The heap side of the configuration parser: the tree objects that NginxConfigParser::Parse
    links together through its stack of block pointers, and their printers. Everything is tied
    to the values and the automaton of the other Config modules. */
module ConfigParser {
  import opened CharStreams
  import opened ConfigLexer
  import opened ConfigTree
  import opened ConfigAutomaton
  import opened ConfigRoundTrip

  // ---------------------------------------------------------------- objects and values

  method Tabs(depth: nat) returns (r: string)
    ensures r == Indent(depth)
  {
    r := "";
    for i := 0 to depth
      invariant r == Indent(i)
    {
      r := r + "\t";
    }
  }

  lemma JoinedUpTo(tokens: seq<string>, i: nat)
    requires i < |tokens|
    ensures Joined(tokens[..i + 1]) == Joined(tokens[..i]) + (if i != 0 then " " else "") + tokens[i]
  {
    assert tokens[..i + 1][..i] == tokens[..i];
  }

  lemma PrintedPieces(v: Statement, depth: nat)
    ensures v.child.None? ==> PrintStatement(v, depth) == Indent(depth) + Joined(v.tokens) + ";" + "\n"
    ensures v.child.Some? ==>
      PrintStatement(v, depth) == Indent(depth) + Joined(v.tokens) + " {\n" +
          Print(v.child.value.statements, depth + 1) + Indent(depth) + "}" + "\n"
  {
    if v.child.Some? {
      var head, body := Indent(depth) + Joined(v.tokens), Print(v.child.value.statements, depth + 1);
      assert head + (" {\n" + body + Indent(depth) + "}") == head + " {\n" + body + Indent(depth) + "}";
    }
  }

  /** The objects in `fp` that start at `s` form the statement `v`. */
  ghost predicate StatementIs(s: NginxConfigStatement, v: Statement, fp: set<object>)
    reads fp
    decreases v
  {
    && s in fp
    && s.tokens == v.tokens
    && (s.child == null <==> v.child.None?)
    && (s.child != null ==> ConfigIs(s.child, v.child.value, fp))
  }

  ghost predicate StatementsAre(ss: seq<NginxConfigStatement>, vs: seq<Statement>, fp: set<object>)
    reads fp
    decreases vs
  {
    |ss| == |vs| && forall i :: 0 <= i < |ss| ==> StatementIs(ss[i], vs[i], fp)
  }

  ghost predicate ConfigIs(c: NginxConfig, v: Config, fp: set<object>)
    reads fp
    decreases v
  {
    c in fp && StatementsAre(c.statements, v.statements, fp)
  }

  class NginxConfig {
    var statements: seq<NginxConfigStatement>

    constructor ()
      ensures statements == []
    {
      statements := [];
    }

    method ToString(depth: nat, ghost v: Config, ghost fp: set<object>) returns (r: string)
      requires ConfigIs(this, v, fp)
      ensures r == Print(v.statements, depth)
      decreases v
    {
      r := "";
      for i := 0 to |statements|
        invariant r == Print(v.statements[..i], depth)
      {
        var s := statements[i].ToString(depth, v.statements[i], fp);
        r := r + s;
        assert v.statements[..i + 1][..i] == v.statements[..i];
      }
      assert v.statements[..|statements|] == v.statements;
    }
  }

  class NginxConfigStatement {
    var tokens: seq<string>
    var child: NginxConfig?

    constructor ()
      ensures tokens == [] && child == null
    {
      tokens, child := [], null;
    }

    method ToString(depth: nat, ghost v: Statement, ghost fp: set<object>) returns (r: string)
      requires StatementIs(this, v, fp)
      ensures r == PrintStatement(v, depth)
      decreases v
    {
      var indent := Tabs(depth);
      r := indent;
      for i := 0 to |tokens|
        invariant r == indent + Joined(v.tokens[..i])
      {
        if i != 0 {
          r := r + " ";
        }
        r := r + tokens[i];
        JoinedUpTo(v.tokens, i);
      }
      assert v.tokens[..|tokens|] == v.tokens;
      if child != null {
        var body := child.ToString(depth + 1, v.child.value, fp);
        r := r + " {\n";
        r := r + body;
        r := r + indent;
        r := r + "}";
      } else {
        r := r + ";";
      }
      r := r + "\n";
      PrintedPieces(v, depth);
    }
  }

  lemma {:induction false} StatementsAreGrow(ss: seq<NginxConfigStatement>, vs: seq<Statement>,
                                             fp: set<object>, fp': set<object>)
    requires StatementsAre(ss, vs, fp) && fp <= fp'
    ensures StatementsAre(ss, vs, fp')
    decreases vs
  {
    forall i | 0 <= i < |ss| ensures StatementIs(ss[i], vs[i], fp') {
      StatementIsGrows(ss[i], vs[i], fp, fp');
    }
  }

  lemma {:induction false} StatementIsGrows(s: NginxConfigStatement, v: Statement, fp: set<object>, fp': set<object>)
    requires StatementIs(s, v, fp) && fp <= fp'
    ensures StatementIs(s, v, fp')
    decreases v
  {
    if s.child != null {
      StatementsAreGrow(s.child.statements, v.child.value.statements, fp, fp');
    }
  }

  // ---------------------------------------------------------------- the parser's stack

  datatype Stack<T> = Empty | Push(top: T, below: Stack<T>)

  /** All but the last statement of `c` are finished; the last one, `open`, is not. */
  ghost predicate OpenBlockIs(c: NginxConfig, open: NginxConfigStatement, ss: seq<Statement>, done: set<object>)
    reads done, c, open
  {
    && |c.statements| == |ss| && ss != []
    && c.statements[|ss| - 1] == open
    && StatementsAre(c.statements[..|ss| - 1], ss[..|ss| - 1], done)
    && open.tokens == Last(ss).tokens
  }

  /** The stacked blocks under the top one: each is the parent of the block above it, as the
      child of its last statement, and shares no object with the finished statements. */
  ghost predicate SpineIs(stack: Stack<NginxConfig>, bs: Blocks, above: NginxConfig, done: set<object>,
                          spine: set<object>)
    reads done, spine
    decreases bs
  {
    match bs
    case NoBlocks => stack.Empty?
    case Below(block, rest) =>
      && stack.Push?
      && var c := stack.top;
      && c in spine && c.statements != []
      && var open := c.statements[|c.statements| - 1];
      && open in spine
      && OpenBlockIs(c, open, block, done)
      && open.child == above
      && SpineIs(stack.below, rest, c, done, spine - {c, open})
  }

  lemma {:induction false} SpineGrows(stack: Stack<NginxConfig>, bs: Blocks, above: NginxConfig,
                                      done: set<object>, spine: set<object>, done': set<object>)
    requires SpineIs(stack, bs, above, done, spine) && done <= done'
    ensures SpineIs(stack, bs, above, done', spine)
    decreases bs
  {
    if bs.Below? {
      var c := stack.top;
      var n := |c.statements| - 1;
      StatementsAreGrow(c.statements[..n], bs.block[..n], done, done');
      SpineGrows(stack.below, bs.rest, c, done, spine - {c, c.statements[n]}, done');
    }
  }

  /** The top block, whose last statement collects words after a word token. */
  ghost predicate TopIs(c: NginxConfig, ss: seq<Statement>, collecting: bool, done: set<object>, live: set<object>)
    reads done, live
  {
    && c in live
    && (!collecting ==> StatementsAre(c.statements, ss, done))
    && (collecting ==>
          && c.statements != []
          && var open := c.statements[|c.statements| - 1];
          && open in live && OpenBlockIs(c, open, ss, done) && open.child == null)
  }

  /** The parser's stack of block pointers stands for the automaton state `st`. */
  ghost predicate Represents(stack: Stack<NginxConfig>, st: Parse, done: set<object>, spine: set<object>,
                             live: set<object>)
    reads done, spine, live
  {
    && stack.Push?
    && done !! spine !! live
    && TopIs(stack.top, st.top, st.last == Normal, done, live)
    && SpineIs(stack.below, st.below, stack.top, done, spine)
  }

  function Root<T>(stack: Stack<T>): T
    requires stack.Push?
  {
    if stack.below.Empty? then stack.top else Root(stack.below)
  }

  // ---------------------------------------------------------------- the parser's actions

  /** A block that has got a new statement behind its finished ones. */
  lemma StatementStarted(c: NginxConfig, open: NginxConfigStatement, finished: seq<NginxConfigStatement>,
                         ss: seq<Statement>, token: string, done: set<object>, live: set<object>)
    requires StatementsAre(finished, ss, done)
    requires c in live && open in live && c.statements == finished + [open]
    requires open.tokens == [token] && open.child == null
    ensures TopIs(c, AddWord(ss, false, token), true, done, live)
  {
    var ss' := AddWord(ss, false, token);
    assert c.statements[..|ss'| - 1] == finished;
    assert ss'[..|ss'| - 1] == ss;
  }

  /** A block whose last statement has got one more word. */
  lemma StatementExtended(c: NginxConfig, open: NginxConfigStatement, finished: seq<NginxConfigStatement>,
                          ss: seq<Statement>, token: string, done: set<object>, live: set<object>)
    requires ss != [] && StatementsAre(finished, ss[..|ss| - 1], done)
    requires c in live && open in live && c.statements == finished + [open]
    requires open.tokens == Last(ss).tokens + [token] && open.child == null
    ensures TopIs(c, AddWord(ss, true, token), true, done, live)
  {
    var ss' := AddWord(ss, true, token);
    assert c.statements[..|ss'| - 1] == finished;
    assert ss'[..|ss'| - 1] == ss[..|ss| - 1];
  }

  method StartStatement(top: NginxConfig, token: string, ghost ss: seq<Statement>, ghost done: set<object>,
                        ghost live: set<object>)
    returns (ghost live': set<object>)
    requires TopIs(top, ss, false, done, live) && done !! live
    modifies live
    ensures TopIs(top, AddWord(ss, false, token), true, done, live')
    ensures live <= live' && forall o :: o in live' ==> o in live || fresh(o)
  {
    var statement := new NginxConfigStatement();
    ghost var finished := top.statements;
    top.statements := top.statements + [statement];
    live' := live + {statement};
    statement.tokens := statement.tokens + [token];
    StatementStarted(top, statement, finished, ss, token, done, live');
  }

  method ExtendStatement(top: NginxConfig, token: string, ghost ss: seq<Statement>, ghost done: set<object>,
                         ghost live: set<object>)
    requires TopIs(top, ss, true, done, live) && done !! live
    modifies live
    ensures TopIs(top, AddWord(ss, true, token), true, done, live)
  {
    var statement := top.statements[|top.statements| - 1];
    ghost var finished := top.statements[..|top.statements| - 1];
    statement.tokens := statement.tokens + [token];
    StatementExtended(top, statement, finished, ss, token, done, live);
  }

  method AddToken(stack: Stack<NginxConfig>, last: TokenType, token: string,
                  ghost st: Parse, ghost done: set<object>, ghost spine: set<object>, ghost live: set<object>)
    returns (ghost live': set<object>)
    requires Inv(st) && last == st.last
    requires Represents(stack, st, done, spine, live)
    modifies live
    ensures Represents(stack, OnWord(st, token).state, done, spine, live')
    ensures live <= live' && forall o :: o in live' ==> o in live || fresh(o)
  {
    var top := stack.top;
    if last != Normal {
      live' := StartStatement(top, token, st.top, done, live);
    } else {
      live' := live;
      ExtendStatement(top, token, st.top, done, live);
    }
  }

  lemma {:induction false} SpineWidens(stack: Stack<NginxConfig>, bs: Blocks, above: NginxConfig,
                                       done: set<object>, spine: set<object>, spine': set<object>)
    requires SpineIs(stack, bs, above, done, spine) && spine <= spine'
    ensures SpineIs(stack, bs, above, done, spine')
    decreases bs
  {
    if bs.Below? {
      var c := stack.top;
      var open := c.statements[|c.statements| - 1];
      SpineWidens(stack.below, bs.rest, c, done, spine - {c, open}, spine' - {c, open});
    }
  }

  method OpenBlock(stack: Stack<NginxConfig>, ghost st: Parse, ghost done: set<object>,
                   ghost spine: set<object>, ghost live: set<object>)
    returns (stack': Stack<NginxConfig>, ghost spine': set<object>, ghost live': set<object>)
    requires Inv(st) && st.last == Normal
    requires Represents(stack, st, done, spine, live)
    modifies live
    ensures Represents(stack', OnBlockOpen(st).state, done, spine', live')
    ensures stack' == Push(stack'.top, stack)
    ensures spine' == spine + live && fresh(live')
  {
    var block := new NginxConfig();
    var top := stack.top;
    var open := top.statements[|top.statements| - 1];
    open.child := block;
    stack' := Push(block, stack);
    spine', live' := spine + live, {block};
    assert Attach(st.top, [])[..|st.top| - 1] == st.top[..|st.top| - 1];
    SpineWidens(stack.below, st.below, top, done, spine, spine' - {top, open});
  }

  /** A block whose child block is finished is itself a finished list of statements. */
  lemma AttachedIs(c: NginxConfig, open: NginxConfigStatement, ss: seq<Statement>, done: set<object>,
                   child: NginxConfig, body: seq<Statement>, done': set<object>)
    requires OpenBlockIs(c, open, ss, done) && open.child == child
    requires done <= done' && open in done' && ConfigIs(child, Config(body), done')
    ensures StatementsAre(c.statements, Attach(ss, body), done')
  {
    var n := |ss| - 1;
    StatementsAreGrow(c.statements[..n], ss[..n], done, done');
    forall i | 0 <= i <= n ensures StatementIs(c.statements[i], Attach(ss, body)[i], done') {
      if i < n {
        assert StatementIs(c.statements[..n][i], ss[..n][i], done');
      }
    }
  }

  /** Popping the stack, with the popped block among the finished objects. */
  lemma Popped(stack: Stack<NginxConfig>, st: Parse, done: set<object>, spine: set<object>, live: set<object>)
    requires Inv(st) && OnBlockClose(st).Continue?
    requires Represents(stack, st, done, spine, live)
    ensures stack.below.Push? && stack.below.top in spine
    ensures var c := stack.below.top;
      && c.statements != []
      && var open := c.statements[|c.statements| - 1];
      && open in spine
      && Represents(stack.below, OnBlockClose(st).state, done + live + {open}, spine - {c, open}, {c})
  {
    var c := stack.below.top;
    var open := c.statements[|c.statements| - 1];
    var done' := done + live + {open};
    StatementsAreGrow(stack.top.statements, st.top, done, done');
    AttachedIs(c, open, st.below.block, done, stack.top, st.top, done');
    SpineGrows(stack.below.below, st.below.rest, c, done, spine - {c, open}, done');
  }

  lemma CollectingIs(c: NginxConfig, ss: seq<Statement>, done: set<object>, live: set<object>, done': set<object>)
    requires TopIs(c, ss, true, done, live) && Collecting(ss)
    requires done <= done' && live - {c} <= done'
    ensures StatementsAre(c.statements, ss, done')
  {
    var n := |ss| - 1;
    StatementsAreGrow(c.statements[..n], ss[..n], done, done');
    forall i | 0 <= i <= n ensures StatementIs(c.statements[i], ss[i], done') {
      if i < n {
        assert StatementIs(c.statements[..n][i], ss[..n][i], done');
      }
    }
  }

  /** A semicolon finishes the statement that was collecting words. */
  lemma Finished(stack: Stack<NginxConfig>, st: Parse, done: set<object>, spine: set<object>, live: set<object>)
    requires Inv(st) && st.last == Normal
    requires Represents(stack, st, done, spine, live)
    ensures Represents(stack, OnSemicolon(st).state, done + (live - {stack.top}), spine, {stack.top})
  {
    var done' := done + (live - {stack.top});
    CollectingIs(stack.top, st.top, done, live, done');
    SpineGrows(stack.below, st.below, stack.top, done, spine, done');
  }

  lemma {:induction false} SpineHolds(stack: Stack<NginxConfig>, top: seq<Statement>, bs: Blocks,
                                      done: set<object>, spine: set<object>)
    requires stack.Push? && Owning(bs)
    requires StatementsAre(stack.top.statements, top, done)
    requires SpineIs(stack.below, bs, stack.top, done, spine)
    ensures StatementsAre(Root(stack).statements, Collapse(top, bs), done + spine + {stack.top})
    ensures Root(stack) in spine + {stack.top}
    decreases bs
  {
    match bs
    case NoBlocks =>
      StatementsAreGrow(stack.top.statements, top, done, done + spine + {stack.top});
    case Below(block, rest) =>
      var c := stack.below.top;
      var open := c.statements[|c.statements| - 1];
      var done' := done + {stack.top, open};
      StatementsAreGrow(stack.top.statements, top, done, done');
      AttachedIs(c, open, block, done, stack.top, top, done');
      SpineGrows(stack.below.below, rest, c, done, spine - {c, open}, done');
      SpineHolds(stack.below, Attach(block, top), rest, done', spine - {c, open});
      StatementsAreGrow(Root(stack).statements, Collapse(top, bs),
                        done' + (spine - {c, open}) + {c}, done + spine + {stack.top});
  }

  /** Whenever the parser stops, the root object holds the collapsed stack. */
  lemma RootHolds(stack: Stack<NginxConfig>, st: Parse, done: set<object>, spine: set<object>, live: set<object>)
    requires Inv(st)
    requires Represents(stack, st, done, spine, live)
    ensures StatementsAre(Root(stack).statements, Collapse(st.top, st.below), done + spine + live)
    ensures Root(stack) in spine + live
  {
    var done' := done + (live - {stack.top});
    if st.last == Normal {
      CollectingIs(stack.top, st.top, done, live, done');
    } else {
      StatementsAreGrow(stack.top.statements, st.top, done, done');
    }
    SpineGrows(stack.below, st.below, stack.top, done, spine, done');
    SpineHolds(stack, st.top, st.below, done', spine);
    StatementsAreGrow(Root(stack).statements, Collapse(st.top, st.below),
                      done' + spine + {stack.top}, done + spine + live);
  }

  /** The ghost side of the parser's loop: the automaton state and the objects by role. */
  datatype Ghosts = Ghosts(st: Parse, done: set<object>, spine: set<object>, live: set<object>)
  {
    ghost predicate Valid(stack: Stack<NginxConfig>)
      reads done, spine, live
    {
      Inv(st) && Represents(stack, st, done, spine, live)
    }

    ghost function Objects(): set<object> {
      done + spine + live
    }
  }

  /** Reacts to one token other than a comment or an error: moves the stack and the bracket
      counter as the automaton does, or stops. */
  method React(stack: Stack<NginxConfig>, last: TokenType, brackets: int, kind: TokenType, token: string,
               ghost g: Ghosts)
    returns (stop: bool, stack': Stack<NginxConfig>, brackets': int, ghost g': Ghosts)
    requires g.Valid(stack) && last == g.st.last && brackets == g.st.brackets
    requires !IsLast(kind) && kind != Comment && kind != Start
    modifies g.live
    ensures var out := Step(g.st, TokenOf(Lexeme(kind, token, "")));
      && stop == out.Done?
      && (stop ==> g' == g && stack' == stack)
      && (!stop ==> g'.st == out.state && brackets' == g'.st.brackets && kind == g'.st.last)
    ensures g'.Valid(stack') && Root(stack') == Root(stack)
    ensures g.done <= g'.done
    ensures forall o :: o in g'.Objects() ==> o in g.Objects() || fresh(o)
  {
    stop, stack', brackets', g' := false, stack, brackets, g;
    StepKeepsInv(g.st, TokenOf(Lexeme(kind, token, "")));
    if kind == Normal {
      ghost var live := AddToken(stack, last, token, g.st, g.done, g.spine, g.live);
      g' := g.(st := OnWord(g.st, token).state, live := live);
    } else if kind == StatementEnd {
      if last != Normal {
        return true, stack, brackets, g;
      }
      Finished(stack, g.st, g.done, g.spine, g.live);
      g' := Ghosts(OnSemicolon(g.st).state, g.done + (g.live - {stack.top}), g.spine, {stack.top});
    } else if kind == StartBlock {
      brackets' := brackets + 1;
      if last != Normal {
        return true, stack, brackets', g;
      }
      ghost var spine, live;
      stack', spine, live := OpenBlock(stack, g.st, g.done, g.spine, g.live);
      g' := Ghosts(OnBlockOpen(g.st).state, g.done, spine, live);
    } else {
      brackets' := brackets - 1;
      if last != StatementEnd && last != EndBlock && last != StartBlock {
        return true, stack, brackets', g;
      } else if brackets' < 0 {
        return true, stack, brackets', g;
      }
      Popped(stack, g.st, g.done, g.spine, g.live);
      stack' := stack.below;
      ghost var c := stack'.top;
      ghost var open := c.statements[|c.statements| - 1];
      g' := Ghosts(OnBlockClose(g.st).state, g.done + g.live + {open}, g.spine - {c, open}, {c});
    }
  }

  /** One turn of the parser's loop, for a token other than a comment. */
  lemma ParseTextStep(st: Parse, s: string)
    requires Inv(st)
    requires !IsLast(Lex(s).kind) && Lex(s).kind != Comment
    ensures match Step(st, TokenOf(Lex(s)))
            case Continue(st') => Inv(st') && ParseText(st, s) == ParseText(st', Lex(s).rest)
            case Done(_, _) => ParseText(st, s) == Reject(st)
    ensures TokenOf(Lexeme(Lex(s).kind, Lex(s).value, "")) == TokenOf(Lex(s))
  {
    StepKeepsInv(st, TokenOf(Lex(s)));
  }

  datatype Verdict = Going | Accepted | Rejected

  /** The body of the parser's loop: reads one token and reacts to it. */
  method Turn(input: CharStream, stack: Stack<NginxConfig>, last: TokenType, brackets: int, ghost g: Ghosts)
    returns (verdict: Verdict, stack': Stack<NginxConfig>, last': TokenType, brackets': int, ghost g': Ghosts)
    requires input.Valid() && input !in g.Objects()
    requires g.Valid(stack) && last == g.st.last && brackets == g.st.brackets
    modifies input, g.live
    ensures input.Valid()
    ensures verdict == Going ==>
      |input.Unread()| < |old(input.Unread())| && last' == g'.st.last && brackets' == g'.st.brackets
    ensures g'.Valid(stack') && Root(stack') == Root(stack)
    ensures var out := ParseText(g.st, old(input.Unread()));
      match verdict
      case Going => ParseText(g'.st, input.Unread()) == out
      case _ => out == Done(verdict.Accepted?, Collapse(g.st.top, g.st.below)) && g' == g && stack' == stack
    ensures g.done <= g'.done
    ensures forall o :: o in g'.Objects() ==> o in g.Objects() || fresh(o)
  {
    ghost var text := input.Unread();
    LexConsumes(text);
    LexNeverStarts(text);
    stack', last', brackets', g' := stack, last, brackets, g;
    var token_type, token := ParseToken(input);
    if token_type == TokenType.Error {
      return Rejected, stack, last, brackets, g;
    }
    if token_type == TokenType.Comment {
      return Going, stack, last, brackets, g;
    }
    if token_type == Eof {
      verdict := if (last == StatementEnd || last == EndBlock) && brackets == 0 then Accepted else Rejected;
      return verdict, stack, last, brackets, g;
    }
    assert g.Valid(stack);
    ParseTextStep(g.st, text);
    var stop;
    stop, stack', brackets', g' := React(stack, last, brackets, token_type, token, g);
    if stop {
      return Rejected, stack', last, brackets', g';
    }
    verdict, last' := Going, token_type;
  }

  /** The parser proper. `base` is what the configuration object holds beforehand. */
  method Parse(input: CharStream, config: NginxConfig, ghost base: seq<Statement>, ghost fp: set<object>)
    returns (ok: bool, ghost fp': set<object>)
    requires input.Valid()
    requires StatementsAre(config.statements, base, fp)
    requires config !in fp && input !in fp
    modifies input, config
    ensures input.Valid()
    ensures var out := ParseText(Init(base), old(input.Unread()));
            ok == out.accepted && StatementsAre(config.statements, out.tree, fp')
    ensures fp <= fp' && fresh(fp' - (fp + {config}))
  {
    var stack := Push(config, Empty);
    var last_token_type := Start;
    var bracket_count := 0;
    var verdict := Going;
    ghost var g := Ghosts(Init(base), fp, {}, {config});
    ghost var known := fp + {config};
    ghost var out := ParseText(g.st, input.Unread());
    while verdict == Going
      invariant input.Valid() && input !in g.Objects()
      invariant g.Valid(stack) && Root(stack) == config
      invariant verdict == Going ==> last_token_type == g.st.last && bracket_count == g.st.brackets
      invariant fp <= g.done && (forall o :: o in g.Objects() ==> o in known || fresh(o))
      invariant verdict == Going ==> ParseText(g.st, input.Unread()) == out
      invariant verdict != Going ==> out == Done(verdict.Accepted?, Collapse(g.st.top, g.st.below))
      decreases verdict == Going, |input.Unread()|
    {
      verdict, stack, last_token_type, bracket_count, g := Turn(input, stack, last_token_type, bracket_count, g);
    }
    RootHolds(stack, g.st, g.done, g.spine, g.live);
    return verdict == Accepted, g.Objects();
  }
}
