/** The token-pair automaton of NginxConfigParser::Parse, on values: a stack of open blocks,
    the bracket counter and the type of the previous token. */
module ConfigAutomaton {
  import opened Wrappers
  import opened ConfigLexer
  import opened ConfigTree

  /** The open blocks under the top one, innermost first. The child of such a block's last
      statement is the block above it, and is kept here as an empty placeholder. */
  datatype Blocks = NoBlocks | Below(block: seq<Statement>, rest: Blocks)

  datatype Parse = Parse(top: seq<Statement>, below: Blocks, last: TokenType, brackets: int)

  datatype Outcome = Continue(state: Parse) | Done(accepted: bool, tree: seq<Statement>)

  function Height(bs: Blocks): nat {
    match bs
    case NoBlocks => 0
    case Below(_, rest) => 1 + Height(rest)
  }

  function Last(ss: seq<Statement>): Statement
    requires ss != []
  {
    ss[|ss| - 1]
  }

  function SetLast(ss: seq<Statement>, s: Statement): seq<Statement>
    requires ss != []
  {
    ss[..|ss| - 1] + [s]
  }

  /** `ss` with `block` as the child of its last statement. */
  function Attach(ss: seq<Statement>, block: seq<Statement>): seq<Statement>
    requires ss != []
  {
    SetLast(ss, Statement(Last(ss).tokens, Some(Config(block))))
  }

  /** Each block under the top has a last statement that owns the next block. */
  predicate Owning(bs: Blocks) {
    match bs
    case NoBlocks => true
    case Below(block, rest) =>
      block != [] && Last(block).tokens != [] && Last(block).child.Some? && Owning(rest)
  }

  /** A statement that is still collecting words. */
  predicate Collecting(ss: seq<Statement>) {
    ss != [] && Last(ss).tokens != [] && Last(ss).child.None?
  }

  /** The stack height is the bracket count plus one, the blocks own each other, and after a
      word the top block's last statement has words and no child. */
  predicate Inv(st: Parse) {
    && st.brackets == Height(st.below)
    && Owning(st.below)
    && (st.last == Normal ==> Collecting(st.top))
    && st.last != Comment && !IsLast(st.last)
  }

  /** The tree that the root block holds: every open block hangs off the one below it. */
  function Collapse(top: seq<Statement>, bs: Blocks): seq<Statement>
    requires Owning(bs)
    decreases bs
  {
    match bs
    case NoBlocks => top
    case Below(block, rest) => Collapse(Attach(block, top), rest)
  }

  function Reject(st: Parse): Outcome
    requires Inv(st)
  {
    Done(false, Collapse(st.top, st.below))
  }

  function AddWord(ss: seq<Statement>, collecting: bool, w: string): seq<Statement>
    requires collecting ==> ss != []
  {
    if collecting then SetLast(ss, Statement(Last(ss).tokens + [w], Last(ss).child))
    else ss + [Statement([w], None)]
  }

  function OnWord(st: Parse, w: string): Outcome
    requires Inv(st)
  {
    Continue(st.(top := AddWord(st.top, st.last == Normal, w), last := Normal))
  }

  function OnSemicolon(st: Parse): Outcome
    requires Inv(st)
  {
    if st.last != Normal then Reject(st) else Continue(st.(last := StatementEnd))
  }

  function OnBlockOpen(st: Parse): Outcome
    requires Inv(st)
  {
    if st.last != Normal then Reject(st)
    else Continue(Parse([], Below(Attach(st.top, []), st.below), StartBlock, st.brackets + 1))
  }

  function OnBlockClose(st: Parse): Outcome
    requires Inv(st)
  {
    if st.last != StatementEnd && st.last != EndBlock && st.last != StartBlock then Reject(st)
    else if st.brackets - 1 < 0 then Reject(st)
    else Continue(Parse(Attach(st.below.block, st.top), st.below.rest, EndBlock, st.brackets - 1))
  }

  function OnEof(st: Parse): Outcome
    requires Inv(st)
  {
    Done((st.last == StatementEnd || st.last == EndBlock) && st.brackets == 0, Collapse(st.top, st.below))
  }

  function Step(st: Parse, t: Token): Outcome
    requires Inv(st)
  {
    match t
    case Word(text) => OnWord(st, text)
    case Semicolon => OnSemicolon(st)
    case BlockOpen => OnBlockOpen(st)
    case BlockClose => OnBlockClose(st)
  }

  lemma StepKeepsInv(st: Parse, t: Token)
    requires Inv(st)
    ensures Step(st, t).Continue? ==> Inv(Step(st, t).state)
  {
  }

  /** The automaton over a whole comment-free token sequence that ends with the file. */
  function Run(st: Parse, ts: seq<Token>): (out: Outcome)
    requires Inv(st)
    ensures out.Done?
    decreases |ts|
  {
    if ts == [] then OnEof(st)
    else
      StepKeepsInv(st, ts[0]);
      var next := Step(st, ts[0]);
      if next.Continue? then Run(next.state, ts[1..]) else next
  }

  function Init(base: seq<Statement>): Parse {
    Parse(base, NoBlocks, Start, 0)
  }

  // ---------------------------------------------------------------- soundness

  /** The tokens of a block whose last statement is still open. */
  function OpenYield(ss: seq<Statement>): seq<Token>
    requires ss != []
  {
    Yield(ss[..|ss| - 1]) + Words(Last(ss).tokens)
  }

  function LowerYield(bs: Blocks): seq<Token>
    requires Owning(bs)
  {
    match bs
    case NoBlocks => []
    case Below(block, rest) => LowerYield(rest) + OpenYield(block) + [BlockOpen]
  }

  function TopYield(ss: seq<Statement>, last: TokenType): seq<Token>
    requires last == Normal ==> ss != []
  {
    if last == Normal then OpenYield(ss) else Yield(ss)
  }

  /** The tokens that lead to a state: the derivation so far, read off the stack. */
  function Read(st: Parse): seq<Token>
    requires Inv(st)
  {
    LowerYield(st.below) + TopYield(st.top, st.last)
  }

  lemma YieldSnoc(ss: seq<Statement>, s: Statement)
    ensures Yield(ss + [s]) == Yield(ss) + StatementYield(s)
  {
    assert (ss + [s])[..|ss|] == ss;
  }

  lemma AddWordYield(ss: seq<Statement>, last: TokenType, w: string)
    requires last == Normal ==> ss != []
    ensures TopYield(AddWord(ss, last == Normal, w), Normal) == TopYield(ss, last) + [Word(w)]
  {
    var ss' := AddWord(ss, last == Normal, w);
    if last == Normal {
      assert ss'[..|ss| - 1] == ss[..|ss| - 1];
      assert Words(Last(ss).tokens + [w]) == Words(Last(ss).tokens) + [Word(w)];
    } else {
      assert ss'[..|ss|] == ss;
      assert Words([w]) == [Word(w)];
    }
  }

  lemma CollectedYield(ss: seq<Statement>)
    requires Collecting(ss)
    ensures Yield(ss) == OpenYield(ss) + [Semicolon]
  {
    assert ss == ss[..|ss| - 1] + [Last(ss)];
    YieldSnoc(ss[..|ss| - 1], Last(ss));
  }

  lemma AttachOpenYield(ss: seq<Statement>, block: seq<Statement>)
    requires ss != []
    ensures OpenYield(Attach(ss, block)) == OpenYield(ss)
  {
    assert Attach(ss, block)[..|ss| - 1] == ss[..|ss| - 1];
  }

  lemma AttachYield(ss: seq<Statement>, block: seq<Statement>)
    requires ss != []
    ensures Yield(Attach(ss, block)) == OpenYield(ss) + [BlockOpen] + Yield(block) + [BlockClose]
  {
    YieldSnoc(ss[..|ss| - 1], Last(Attach(ss, block)));
  }

  lemma Regroup(a: seq<Token>, b: seq<Token>, c: seq<Token>, d: seq<Token>, e: seq<Token>)
    ensures a + (b + c + d + e) == (a + b + c) + d + e
  {
  }

  /** A step consumes its token and nothing else. */
  lemma StepReads(st: Parse, t: Token)
    requires Inv(st) && Step(st, t).Continue?
    ensures Inv(Step(st, t).state)
    ensures Read(Step(st, t).state) == Read(st) + [t]
  {
    StepKeepsInv(st, t);
    match t
    case Word(w) => AddWordYield(st.top, st.last, w);
    case Semicolon => CollectedYield(st.top);
    case BlockOpen => AttachOpenYield(st.top, []);
    case BlockClose =>
      AttachYield(st.below.block, st.top);
      Regroup(LowerYield(st.below.rest), OpenYield(st.below.block), [BlockOpen], Yield(st.top), [BlockClose]);
  }

  lemma AcceptedStep(st: Parse, ts: seq<Token>)
    requires Inv(st) && ts != []
    requires Run(st, ts).accepted
    ensures Step(st, ts[0]).Continue? && Inv(Step(st, ts[0]).state)
    ensures Run(st, ts) == Run(Step(st, ts[0]).state, ts[1..])
  {
    StepKeepsInv(st, ts[0]);
  }

  /** A run that accepts has read exactly what its final tree derives. */
  lemma {:induction false} AcceptedIsYield(st: Parse, ts: seq<Token>)
    requires Inv(st)
    requires Run(st, ts).accepted
    ensures Yield(Run(st, ts).tree) == Read(st) + ts
    decreases |ts|
  {
    if ts != [] {
      AcceptedStep(st, ts);
      StepReads(st, ts[0]);
      var st' := Step(st, ts[0]).state;
      AcceptedIsYield(st', ts[1..]);
      assert Read(st') + ts[1..] == Read(st) + ([ts[0]] + ts[1..]);
    }
  }
}
