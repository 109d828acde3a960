/** How a printed configuration is laid out: every line is indented by the number of blocks open around
    it. */
module ConfigLayout {
  import opened Wrappers
  import opened ConfigLexer
  import opened ConfigTree

  /** The position of the first line end, or |s|. */
  function LineLength(s: string): (k: nat)
    ensures k <= |s| && (k < |s| ==> s[k] == '\n') && '\n' !in s[..k]
  {
    if s == "" || s[0] == '\n' then 0
    else
      var k := 1 + LineLength(s[1..]);
      assert s[..k] == [s[0]] + s[1..][..k - 1];
      k
  }

  /** Exactly `depth` tabs, and something behind them. */
  predicate IndentedBy(line: string, depth: int) {
    0 <= depth < |line| && (forall i :: 0 <= i < depth ==> line[i] == '\t') && line[depth] != '\t'
  }

  /** The depth of a line that is read where `depth` blocks are open: one that ends in a closing bracket
      stands outside. */
  function LineDepth(line: string, depth: int): int {
    if line != "" && line[|line| - 1] == '}' then depth - 1 else depth
  }

  /** The number of open blocks behind such a line. */
  function DepthBehind(line: string, depth: int): int {
    if line != "" && line[|line| - 1] == '{' then depth + 1 else LineDepth(line, depth)
  }

  /** Reads a text line by line and counts its brackets: every line is closed by a line end and indented
      by the number of blocks that are open. */
  predicate LaidOut(s: string, depth: int)
    decreases |s|
  {
    s != "" ==>
      var k := LineLength(s);
      k < |s| && IndentedBy(s[..k], LineDepth(s[..k], depth)) && LaidOut(s[k + 1..], DepthBehind(s[..k], depth))
  }

  /** No word holds a line end. */
  predicate OneLineWords(tokens: seq<string>) {
    forall i :: 0 <= i < |tokens| ==> '\n' !in tokens[i]
  }

  predicate OneLineStatement(s: Statement) {
    OneLineWords(s.tokens) && (s.child.Some? ==> OneLineTree(s.child.value.statements))
  }

  predicate OneLineTree(ss: seq<Statement>) {
    forall i :: 0 <= i < |ss| ==> OneLineStatement(ss[i])
  }

  lemma LineLengthIs(line: string, rest: string)
    requires '\n' !in line
    ensures LineLength(line + (['\n'] + rest)) == |line|
  {
    var s := line + (['\n'] + rest);
    assert s[|line|] == '\n' && forall i :: 0 <= i < |line| ==> s[i] == line[i];
    forall i | 0 <= i < LineLength(s) ensures s[i] != '\n' {
      assert s[i] == s[..LineLength(s)][i];
    }
  }

  lemma LineStep(line: string, rest: string, depth: int)
    requires '\n' !in line
    ensures LaidOut(line + (['\n'] + rest), depth) <==>
            IndentedBy(line, LineDepth(line, depth)) && LaidOut(rest, DepthBehind(line, depth))
  {
    var s := line + (['\n'] + rest);
    LineLengthIs(line, rest);
    assert s[..|line|] == line && s[|line| + 1..] == rest;
  }

  lemma IndentedLine(d: nat, body: string)
    requires body != "" && '\n' !in body && body[0] != '\t'
    ensures var line := Indent(d) + body;
            '\n' !in line && line != "" && line[|line| - 1] == body[|body| - 1] && IndentedBy(line, d)
  {
    var line := Indent(d) + body;
    assert line[d] == body[0];
  }

  /** A line of a printed statement, and what is read behind it. */
  lemma LineRead(d: nat, body: string, rest: string, depth: int)
    requires body != "" && '\n' !in body && body[0] != '\t'
    requires depth == if body[|body| - 1] == '}' then d + 1 else d
    ensures LaidOut((Indent(d) + body) + (['\n'] + rest), depth) ==
            LaidOut(rest, if body[|body| - 1] == '{' then d + 1 else d)
  {
    IndentedLine(d, body);
    LineStep(Indent(d) + body, rest, depth);
  }

  lemma {:induction false} JoinedIsOneLine(tokens: seq<string>)
    requires OneLineWords(tokens)
    ensures '\n' !in Joined(tokens)
    decreases |tokens|
  {
    if tokens != [] {
      JoinedIsOneLine(tokens[..|tokens| - 1]);
    }
  }

  lemma {:induction false} JoinedStarts(tokens: seq<string>)
    requires AllLexable(tokens) && tokens != []
    ensures Joined(tokens) != "" && Joined(tokens)[0] == tokens[0][0] && tokens[0][0] != '\t'
    decreases |tokens|
  {
    var n := |tokens| - 1;
    assert Lexable(tokens[0]) && Lexable(tokens[n]);
    if n > 0 {
      JoinedStarts(tokens[..n]);
    }
  }

  /** The words of a statement with what ends its first line. */
  lemma BodyOk(tokens: seq<string>, end: string)
    requires OneLineWords(tokens) && AllLexable(tokens) && (end == ";" || end == " {")
    ensures var body := Joined(tokens) + end;
            body != "" && '\n' !in body && body[0] != '\t' && body[|body| - 1] == end[|end| - 1]
  {
    JoinedIsOneLine(tokens);
    if tokens != [] {
      JoinedStarts(tokens);
    }
  }

  lemma LeafPrinted(s: Statement, depth: nat, rest: string)
    requires s.child.None?
    ensures PrintStatement(s, depth) + rest == (Indent(depth) + (Joined(s.tokens) + ";")) + (['\n'] + rest)
  {
  }

  lemma Regrouped(head: string, inner: string, close: string, rest: string)
    ensures (head + ['\n'] + inner + close + ['\n']) + rest == head + (['\n'] + (inner + (close + (['\n'] + rest))))
  {
  }

  lemma BlockPrinted(s: Statement, depth: nat, rest: string)
    requires s.child.Some?
    ensures PrintStatement(s, depth) + rest ==
            (Indent(depth) + (Joined(s.tokens) + " {")) + (['\n'] + (Print(s.child.value.statements, depth + 1)
                + ((Indent(depth) + "}") + (['\n'] + rest))))
  {
    var inner, close := Print(s.child.value.statements, depth + 1), Indent(depth) + "}";
    var head := Indent(depth) + (Joined(s.tokens) + " {");
    assert " {\n" == " {" + ['\n'];
    assert PrintStatement(s, depth) == head + ['\n'] + inner + close + ['\n'];
    Regrouped(head, inner, close, rest);
  }

  lemma {:induction false} ForestLaidOut(ss: seq<Statement>, depth: nat, rest: string)
    requires LexableTree(ss) && OneLineTree(ss)
    ensures LaidOut(Print(ss, depth) + rest, depth) == LaidOut(rest, depth)
    decreases ss, 0
  {
    if ss == [] {
      assert Print(ss, depth) + rest == rest;
    } else {
      var n := |ss| - 1;
      assert LexableStatement(ss[n]) && OneLineStatement(ss[n]);
      assert Print(ss, depth) + rest == Print(ss[..n], depth) + (PrintStatement(ss[n], depth) + rest);
      ForestLaidOut(ss[..n], depth, PrintStatement(ss[n], depth) + rest);
      StatementLaidOut(ss[n], depth, rest);
    }
  }

  lemma {:induction false} StatementLaidOut(s: Statement, depth: nat, rest: string)
    requires LexableStatement(s) && OneLineStatement(s)
    ensures LaidOut(PrintStatement(s, depth) + rest, depth) == LaidOut(rest, depth)
    decreases s, 1
  {
    match s.child
    case None =>
      LeafPrinted(s, depth, rest);
      BodyOk(s.tokens, ";");
      LineRead(depth, Joined(s.tokens) + ";", rest, depth);
    case Some(block) =>
      var close := (Indent(depth) + "}") + (['\n'] + rest);
      BlockPrinted(s, depth, rest);
      BodyOk(s.tokens, " {");
      LineRead(depth, Joined(s.tokens) + " {", Print(block.statements, depth + 1) + close, depth);
      ForestLaidOut(block.statements, depth + 1, close);
      LineRead(depth, "}", rest, depth + 1);
  }

  /** Where no word holds a line end, every line of a printed tree is indented by the number of blocks
      that are open around it. */
  lemma PrintIsLaidOut(ss: seq<Statement>, depth: nat)
    requires LexableTree(ss) && OneLineTree(ss)
    ensures LaidOut(Print(ss, depth), depth)
  {
    ForestLaidOut(ss, depth, "");
    assert Print(ss, depth) + "" == Print(ss, depth);
  }

  lemma PrintOne(s: Statement, depth: nat)
    ensures Print([s], depth) == PrintStatement(s, depth)
  {
    assert [s][..0] == [] && "" + PrintStatement(s, depth) == PrintStatement(s, depth);
  }

  lemma JoinExample()
    ensures Joined(["c"]) == "c" && Joined(["a", "b"]) == "a b"
  {
    assert ["a", "b"][..1] == ["a"];
  }

  lemma InnerExample()
    ensures Print([Statement(["c"], None)], 1) == "\tc;\n"
  {
    PrintOne(Statement(["c"], None), 1);
    JoinExample();
  }

  /** A printed block with one statement. */
  lemma PrintExample()
    ensures Print([Statement(["a", "b"], Some(Config([Statement(["c"], None)])))], 0) == "a b {\n\tc;\n}\n"
  {
    PrintOne(Statement(["a", "b"], Some(Config([Statement(["c"], None)]))), 0);
    JoinExample();
    InnerExample();
  }
}
