/** Configuration trees as values, their printed form and their token sequence. */
module ConfigTree {
  import opened Wrappers
  import opened ConfigLexer

  datatype Statement = Statement(tokens: seq<string>, child: Option<Config>)

  datatype Config = Config(statements: seq<Statement>)

  // ---------------------------------------------------------------- the printer

  function Indent(depth: nat): string {
    seq(depth, _ => '\t')
  }

  /** The words of a statement, separated by single spaces. */
  function Joined(tokens: seq<string>): string {
    if tokens == [] then ""
    else Joined(tokens[..|tokens| - 1]) + (if |tokens| > 1 then " " else "") + tokens[|tokens| - 1]
  }

  function PrintStatement(s: Statement, depth: nat): string {
    Indent(depth) + Joined(s.tokens)
    + (match s.child
       case Some(block) => " {\n" + Print(block.statements, depth + 1) + Indent(depth) + "}"
       case None => ";")
    + "\n"
  }

  function Print(ss: seq<Statement>, depth: nat): string {
    if ss == [] then "" else Print(ss[..|ss| - 1], depth) + PrintStatement(ss[|ss| - 1], depth)
  }

  // ---------------------------------------------------------------- the grammar

  /** What the parser sees of a lexeme. Comments never reach the grammar. */
  datatype Token = Word(text: string) | Semicolon | BlockOpen | BlockClose

  function Words(tokens: seq<string>): seq<Token> {
    seq(|tokens|, i requires 0 <= i < |tokens| => Word(tokens[i]))
  }

  function StatementYield(s: Statement): seq<Token> {
    Words(s.tokens)
    + (match s.child
       case Some(block) => [BlockOpen] + Yield(block.statements) + [BlockClose]
       case None => [Semicolon])
  }

  /** The token sequence that the grammar
          config = statement+    statement = WORD+ (";" | "{" statement* "}")
      derives for a forest of statements. */
  function Yield(ss: seq<Statement>): seq<Token> {
    if ss == [] then [] else Yield(ss[..|ss| - 1]) + StatementYield(ss[|ss| - 1])
  }

  predicate DerivableStatement(s: Statement) {
    s.tokens != [] && (s.child.Some? ==> Derivable(s.child.value.statements))
  }

  /** Every statement of the tree has at least one word. */
  predicate Derivable(ss: seq<Statement>) {
    forall i :: 0 <= i < |ss| ==> DerivableStatement(ss[i])
  }

  predicate AllLexable(tokens: seq<string>) {
    forall i :: 0 <= i < |tokens| ==> Lexable(tokens[i])
  }

  predicate LexableStatement(s: Statement) {
    AllLexable(s.tokens) && (s.child.Some? ==> LexableTree(s.child.value.statements))
  }

  /** Every word of the tree can be read back by the lexer. */
  predicate LexableTree(ss: seq<Statement>) {
    forall i :: 0 <= i < |ss| ==> LexableStatement(ss[i])
  }

  lemma {:induction false} LexableStatementFromYield(s: Statement)
    requires forall t :: t in StatementYield(s) && t.Word? ==> Lexable(t.text)
    ensures LexableStatement(s)
  {
    forall i | 0 <= i < |s.tokens| ensures Lexable(s.tokens[i]) {
      assert StatementYield(s)[i] == Word(s.tokens[i]);
    }
    if s.child.Some? {
      assert forall t :: t in Yield(s.child.value.statements) ==> t in StatementYield(s);
      LexableFromYield(s.child.value.statements);
    }
  }

  /** Whether a tree is lexable can be told from its token sequence alone. */
  lemma {:induction false} LexableFromYield(ss: seq<Statement>)
    requires forall t :: t in Yield(ss) && t.Word? ==> Lexable(t.text)
    ensures LexableTree(ss)
  {
    if ss != [] {
      var n := |ss| - 1;
      LexableFromYield(ss[..n]);
      LexableStatementFromYield(ss[n]);
      assert forall i :: 0 <= i < n ==> LexableStatement(ss[..n][i]);
    }
  }
}
