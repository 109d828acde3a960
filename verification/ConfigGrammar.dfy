/** The automaton accepts exactly the sentences of the grammar and builds their parse trees. */
module ConfigGrammar {
  import opened Wrappers
  import opened ConfigLexer
  import opened ConfigTree
  import opened ConfigAutomaton

  // ---------------------------------------------------------------- accepted trees are derivable

  predicate DerivableBlocks(bs: Blocks) {
    match bs
    case NoBlocks => true
    case Below(block, rest) => Derivable(block) && DerivableBlocks(rest)
  }

  lemma AttachDerivable(ss: seq<Statement>, block: seq<Statement>)
    requires ss != [] && Last(ss).tokens != [] && Derivable(ss) && Derivable(block)
    ensures Derivable(Attach(ss, block))
  {
    var s := Statement(Last(ss).tokens, Some(Config(block)));
    assert DerivableStatement(s);
  }

  lemma StepKeepsDerivable(st: Parse, t: Token)
    requires Inv(st) && Derivable(st.top) && DerivableBlocks(st.below)
    ensures match Step(st, t)
            case Continue(st') => Derivable(st'.top) && DerivableBlocks(st'.below)
            case Done(_, _) => true
  {
    match t
    case Word(_) =>
    case Semicolon =>
    case BlockOpen => if st.last == Normal { AttachDerivable(st.top, []); }
    case BlockClose => if st.below.Below? { AttachDerivable(st.below.block, st.top); }
  }

  lemma {:induction false} AcceptedIsDerivable(st: Parse, ts: seq<Token>)
    requires Inv(st) && Derivable(st.top) && DerivableBlocks(st.below)
    requires Run(st, ts).accepted
    ensures Derivable(Run(st, ts).tree)
    decreases |ts|
  {
    if ts != [] {
      AcceptedStep(st, ts);
      StepKeepsDerivable(st, ts[0]);
      AcceptedIsDerivable(Step(st, ts[0]).state, ts[1..]);
    }
  }

  // ---------------------------------------------------------------- completeness

  /** The state after the statements `ss` have been read from a state between statements. */
  function After(st: Parse, ss: seq<Statement>): Parse {
    if ss == [] then st
    else st.(top := st.top + ss, last := if Last(ss).child.Some? then EndBlock else StatementEnd)
  }

  lemma RunStep(st: Parse, t: Token, rest: seq<Token>)
    requires Inv(st) && Step(st, t).Continue?
    ensures Inv(Step(st, t).state)
    ensures Run(st, [t] + rest) == Run(Step(st, t).state, rest)
  {
    StepKeepsInv(st, t);
    assert ([t] + rest)[1..] == rest;
  }

  function AfterWords(st: Parse, tokens: seq<string>): Parse {
    st.(top := st.top + [Statement(tokens, None)], last := Normal)
  }

  lemma {:induction false} RunWords(st: Parse, tokens: seq<string>, rest: seq<Token>)
    requires Inv(st) && st.last != Normal
    requires tokens != []
    ensures Inv(AfterWords(st, tokens))
    ensures Run(st, Words(tokens) + rest) == Run(AfterWords(st, tokens), rest)
    decreases |tokens|
  {
    var n := |tokens| - 1;
    var w := tokens[n];
    if n == 0 {
      assert Words(tokens) + rest == [Word(w)] + rest;
      RunStep(st, Word(w), rest);
      assert tokens == [w];
    } else {
      assert Words(tokens) + rest == Words(tokens[..n]) + ([Word(w)] + rest);
      RunWords(st, tokens[..n], [Word(w)] + rest);
      var mid := AfterWords(st, tokens[..n]);
      RunStep(mid, Word(w), rest);
      assert mid.top[..|st.top|] == st.top && tokens[..n] + [w] == tokens;
    }
  }

  lemma AttachNew(top: seq<Statement>, s: Statement, block: seq<Statement>)
    ensures Attach(top + [s], block) == top + [Statement(s.tokens, Some(Config(block)))]
  {
    assert (top + [s])[..|top|] == top;
  }

  lemma AfterAppend(st: Parse, ss: seq<Statement>)
    requires ss != []
    ensures After(After(st, ss[..|ss| - 1]), [Last(ss)]) == After(st, ss)
  {
    var n := |ss| - 1;
    assert st.top + ss[..n] + [Last(ss)] == st.top + ss;
  }

  /** A whole block, braces included, behind the words of its statement. */
  lemma {:induction false} RunBlock(mid: Parse, block: Config, rest: seq<Token>)
    requires Inv(mid) && mid.last == Normal
    requires Derivable(block.statements)
    ensures var end := mid.(top := Attach(mid.top, block.statements), last := EndBlock);
      && Inv(end)
      && Run(mid, [BlockOpen] + Yield(block.statements) + [BlockClose] + rest) == Run(end, rest)
    decreases block, 2
  {
    var body := block.statements;
    assert [BlockOpen] + Yield(body) + [BlockClose] + rest == [BlockOpen] + (Yield(body) + ([BlockClose] + rest));
    RunStep(mid, BlockOpen, Yield(body) + ([BlockClose] + rest));
    var open := OnBlockOpen(mid).state;
    RunStatements(open, body, [BlockClose] + rest);
    var full := After(open, body);
    RunStep(full, BlockClose, rest);
    assert [] + body == body;
    assert Attach(Attach(mid.top, []), body) == Attach(mid.top, body);
  }

  lemma {:induction false} RunStatement(st: Parse, s: Statement, rest: seq<Token>)
    requires Inv(st) && st.last != Normal
    requires DerivableStatement(s)
    ensures Inv(After(st, [s]))
    ensures Run(st, StatementYield(s) + rest) == Run(After(st, [s]), rest)
    decreases s, 1
  {
    var mid := AfterWords(st, s.tokens);
    match s.child
    case None =>
      assert StatementYield(s) + rest == Words(s.tokens) + ([Semicolon] + rest);
      RunWords(st, s.tokens, [Semicolon] + rest);
      RunStep(mid, Semicolon, rest);
    case Some(block) =>
      var inner := [BlockOpen] + Yield(block.statements) + [BlockClose];
      assert StatementYield(s) + rest == Words(s.tokens) + (inner + rest);
      RunWords(st, s.tokens, inner + rest);
      RunBlock(mid, block, rest);
      AttachNew(st.top, Statement(s.tokens, None), block.statements);
  }

  lemma {:induction false} RunStatements(st: Parse, ss: seq<Statement>, rest: seq<Token>)
    requires Inv(st) && st.last != Normal
    requires Derivable(ss)
    ensures Inv(After(st, ss))
    ensures Run(st, Yield(ss) + rest) == Run(After(st, ss), rest)
    decreases ss, 0
  {
    if ss == [] {
      assert Yield(ss) + rest == rest;
    } else {
      var n := |ss| - 1;
      assert Yield(ss) + rest == Yield(ss[..n]) + (StatementYield(ss[n]) + rest);
      RunStatements(st, ss[..n], StatementYield(ss[n]) + rest);
      assert DerivableStatement(ss[n]);
      RunStatement(After(st, ss[..n]), ss[n], rest);
      AfterAppend(st, ss);
    }
  }

  /** A comment-free token sequence is accepted with a given tree if and only if the tree is a
      non-empty derivation of the grammar and the sequence is what it derives. */
  lemma AcceptsExactlyTheGrammar(ts: seq<Token>, tree: seq<Statement>)
    ensures Run(Init([]), ts) == Done(true, tree) <==> tree != [] && Derivable(tree) && ts == Yield(tree)
  {
    var st := Init([]);
    if Run(st, ts) == Done(true, tree) {
      AcceptedIsYield(st, ts);
      assert Read(st) + ts == ts;
      AcceptedIsDerivable(st, ts);
    }
    if tree != [] && Derivable(tree) && ts == Yield(tree) {
      RunStatements(st, tree, []);
      assert Yield(tree) + [] == ts && [] + tree == tree;
    }
  }

  lemma YieldNonEmpty(ss: seq<Statement>)
    requires ss != []
    ensures Yield(ss) != []
  {
    assert StatementYield(Last(ss)) != [];
  }

  /** The grammar is unambiguous: different derivable trees have different token sequences. */
  lemma YieldIsInjective(a: seq<Statement>, b: seq<Statement>)
    requires Derivable(a) && Derivable(b)
    requires Yield(a) == Yield(b)
    ensures a == b
  {
    AcceptsExactlyTheGrammar(Yield(a), a);
    AcceptsExactlyTheGrammar(Yield(a), b);
    if a == [] && b != [] {
      YieldNonEmpty(b);
    } else if b == [] && a != [] {
      YieldNonEmpty(a);
    }
  }

  // ---------------------------------------------------------------- parsing into a used tree

  function RebaseBlocks(base: seq<Statement>, bs: Blocks): Blocks {
    match bs
    case NoBlocks => NoBlocks
    case Below(block, NoBlocks) => Below(base + block, NoBlocks)
    case Below(block, rest) => Below(block, RebaseBlocks(base, rest))
  }

  /** The state with `base` in front of the statements of the root block. */
  function Rebase(base: seq<Statement>, st: Parse): Parse {
    match st.below
    case NoBlocks => st.(top := base + st.top)
    case Below(_, _) => st.(below := RebaseBlocks(base, st.below))
  }

  lemma {:induction bs} RebaseBlocksKeeps(base: seq<Statement>, bs: Blocks)
    requires Owning(bs)
    ensures Owning(RebaseBlocks(base, bs)) && Height(RebaseBlocks(base, bs)) == Height(bs)
  {
  }

  lemma RebaseKeepsInv(base: seq<Statement>, st: Parse)
    requires Inv(st)
    ensures Inv(Rebase(base, st))
  {
    RebaseBlocksKeeps(base, st.below);
  }

  lemma AttachRebased(base: seq<Statement>, ss: seq<Statement>, block: seq<Statement>)
    requires ss != []
    ensures Attach(base + ss, block) == base + Attach(ss, block)
  {
    assert (base + ss)[..|base + ss| - 1] == base + ss[..|ss| - 1];
  }

  lemma AddWordRebased(base: seq<Statement>, ss: seq<Statement>, collecting: bool, w: string)
    requires collecting ==> ss != []
    ensures AddWord(base + ss, collecting, w) == base + AddWord(ss, collecting, w)
  {
    if collecting {
      assert (base + ss)[..|base + ss| - 1] == base + ss[..|ss| - 1];
    }
  }

  lemma {:induction false} CollapseRebased(base: seq<Statement>, top: seq<Statement>, bs: Blocks)
    requires Owning(bs) && bs.Below?
    ensures Owning(RebaseBlocks(base, bs))
    ensures Collapse(top, RebaseBlocks(base, bs)) == base + Collapse(top, bs)
    decreases bs
  {
    RebaseBlocksKeeps(base, bs);
    if bs.rest == NoBlocks {
      AttachRebased(base, bs.block, top);
    } else {
      CollapseRebased(base, Attach(bs.block, top), bs.rest);
    }
  }

  function RebaseOutcome(base: seq<Statement>, out: Outcome): Outcome {
    match out
    case Continue(st) => Continue(Rebase(base, st))
    case Done(accepted, tree) => Done(accepted, base + tree)
  }

  lemma CollapseState(base: seq<Statement>, st: Parse)
    requires Inv(st)
    ensures Inv(Rebase(base, st))
    ensures Collapse(Rebase(base, st).top, Rebase(base, st).below) == base + Collapse(st.top, st.below)
  {
    RebaseKeepsInv(base, st);
    if st.below.Below? {
      CollapseRebased(base, st.top, st.below);
    }
  }

  lemma StepRebased(base: seq<Statement>, st: Parse, t: Token)
    requires Inv(st)
    ensures Inv(Rebase(base, st))
    ensures Step(Rebase(base, st), t) == RebaseOutcome(base, Step(st, t))
  {
    CollapseState(base, st);
    match t
    case Word(w) => AddWordRebased(base, st.top, st.last == Normal, w);
    case Semicolon =>
    case BlockOpen => if st.last == Normal && st.below == NoBlocks { AttachRebased(base, st.top, []); }
    case BlockClose =>
      if st.below.Below? && st.below.rest == NoBlocks { AttachRebased(base, st.below.block, st.top); }
  }

  /** Parsing appends to whatever the configuration object already held. */
  lemma {:induction false} RunRebased(base: seq<Statement>, st: Parse, ts: seq<Token>)
    requires Inv(st)
    ensures Inv(Rebase(base, st))
    ensures Run(Rebase(base, st), ts) == RebaseOutcome(base, Run(st, ts))
    decreases |ts|
  {
    CollapseState(base, st);
    if ts != [] {
      StepRebased(base, st, ts[0]);
      StepKeepsInv(st, ts[0]);
      if Step(st, ts[0]).Continue? {
        RunRebased(base, Step(st, ts[0]).state, ts[1..]);
      }
    }
  }
}
