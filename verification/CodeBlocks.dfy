/** Code blocks of a Markdown document (isCodeBlockLine and parseCodeBlock). */
module CodeBlocks {
  import opened Wrappers

  /** A token of a group: a blank line, a text line that may still hold markup, or anything else. */
  datatype Line = Blank | Text(text: string) | Other

  predicate Indented(l: Line) {
    l.Text? && |l.text| >= 4 && l.text[..4] == "    "
  }

  /** What a line of a code block turns into. */
  function Image(l: Line): string
    requires l.Blank? || Indented(l)
  {
    (if l.Blank? then "" else l.text[4..]) + "\n"
  }

  /** Blank and indented lines only. */
  predicate CodeLines(ls: seq<Line>) {
    forall k :: 0 <= k < |ls| ==> ls[k].Blank? || Indented(ls[k])
  }

  /** The first `n` lines can be a code block. */
  predicate Block(ls: seq<Line>, n: int) {
    0 < n <= |ls| && CodeLines(ls[..n]) && Indented(ls[n - 1])
  }

  /** ... and no more lines can. */
  predicate Longest(ls: seq<Line>, n: nat) {
    Block(ls, n) && forall m :: n < m <= |ls| ==> !Block(ls, m)
  }

  function Images(ls: seq<Line>): string
    requires CodeLines(ls)
  {
    if ls == [] then "" else Images(ls[..|ls| - 1]) + Image(ls[|ls| - 1])
  }

  /** The next indented line stands behind `b` blank ones. */
  predicate Next(ls: seq<Line>, b: int) {
    0 <= b < |ls| && (forall k :: 0 <= k < b ==> ls[k].Blank?) && Indented(ls[b])
  }

  function Breaks(n: nat): (r: string) {
    if n == 0 then "" else "\n" + Breaks(n - 1)
  }

  /** The text of the next indented line with a line break for each blank line in front of it. */
  function Code(ls: seq<Line>, b: int): string
    requires Next(ls, b)
  {
    Breaks(b) + ls[b].text[4..]
  }

  lemma {:induction false} MoreBreaks(n: nat)
    ensures Breaks(n) + "\n" == Breaks(n + 1)
  {
    if n > 0 {
      MoreBreaks(n - 1);
    }
  }

  lemma Grouped(a: string, b: string, c: string)
    ensures (a + b) + c == a + (b + c)
  {
  }

  lemma {:induction false} BlankImages(ls: seq<Line>, n: nat, b: nat)
    requires n + b <= |ls| && CodeLines(ls[..n]) && forall k :: n <= k < n + b ==> ls[k].Blank?
    ensures CodeLines(ls[..n + b])
    ensures Images(ls[..n + b]) == Images(ls[..n]) + Breaks(b)
    decreases b
  {
    if b > 0 {
      BlankImages(ls, n, b - 1);
      assert ls[..n + b][..n + b - 1] == ls[..n + b - 1];
      MoreBreaks(b - 1);
      Grouped(Images(ls[..n]), Breaks(b - 1), "\n");
    } else {
      assert Images(ls[..n]) + "" == Images(ls[..n]);
    }
  }

  lemma NextBlock(ls: seq<Line>, n: nat, b: nat)
    requires n <= |ls| && CodeLines(ls[..n]) && Next(ls[n..], b)
    ensures Block(ls, n + b + 1)
    ensures Images(ls[..n + b + 1]) == Images(ls[..n]) + (Code(ls[n..], b) + "\n")
  {
    var m := n + b;
    forall k | n <= k <= m ensures ls[k] == ls[n..][k - n] {
    }
    assert CodeLines(ls[..m + 1]);
    BlankImages(ls, n, b);
    assert ls[..m + 1][..m] == ls[..m];
    Grouped(Images(ls[..n]), Breaks(b), Image(ls[m]));
    Grouped(Breaks(b), ls[m].text[4..], "\n");
  }

  /** The first `n` lines have been taken into a block that reads `out`. */
  predicate Taken(out: string, ls: seq<Line>, n: nat) {
    Block(ls, n) && out == Images(ls[..n])
  }

  /** A block that takes in the next indented line. */
  lemma BlockGrows(ls: seq<Line>, n: nat, b: nat, out: string, code: string)
    requires Taken(out, ls, n) && Next(ls[n..], b) && code == Code(ls[n..], b)
    ensures Taken(out + (code + "\n"), ls, n + b + 1)
  {
    NextBlock(ls, n, b);
  }

  /** Where no indented line follows the blank ones, no longer block exists. */
  lemma {:induction false} NoNext(ls: seq<Line>, n: nat, m: nat, b: nat)
    requires n < m <= |ls| && CodeLines(ls[..m]) && Indented(ls[m - 1])
    requires n + b < m && forall k :: n <= k < n + b ==> ls[k].Blank?
    ensures exists c :: Next(ls[n..], c)
    decreases m - b
  {
    assert ls[..m][n + b] == ls[n + b];
    forall k | 0 <= k <= b ensures ls[n..][k] == ls[n + k] {
    }
    if Indented(ls[n + b]) {
      assert Next(ls[n..], b);
    } else {
      NoNext(ls, n, m, b + 1);
    }
  }

  ghost predicate NoneNext(ls: seq<Line>) {
    forall b :: !Next(ls, b)
  }

  /** Blocks end exactly where no indented line can be reached over blank lines. */
  lemma LongestIs(ls: seq<Line>, n: nat)
    requires Block(ls, n)
    ensures Longest(ls, n) <==> NoneNext(ls[n..])
  {
    forall b | Next(ls[n..], b) ensures !Longest(ls, n) {
      NextBlock(ls, n, b);
    }
    forall m | n < m <= |ls| && Block(ls, m) ensures exists b :: Next(ls[n..], b) {
      NoNext(ls, n, m, 0);
    }
  }

  lemma FirstBlock(ls: seq<Line>, b: nat)
    requires Next(ls, b)
    ensures Taken(Code(ls, b) + "\n", ls, b + 1)
  {
    assert ls[0..] == ls;
    NextBlock(ls, 0, b);
    assert "" + (Code(ls, b) + "\n") == Code(ls, b) + "\n";
  }

  lemma AtTheEnd(ls: seq<Line>, n: nat)
    requires Block(ls, n) && n == |ls|
    ensures Longest(ls, n)
  {
  }

  lemma OverBlank(ls: seq<Line>, b: nat)
    requires ls != [] && ls[0].Blank? && Next(ls[1..], b)
    ensures Next(ls, b + 1) && Code(ls, b + 1) == "\n" + Code(ls[1..], b)
  {
    assert forall k :: 0 < k <= b + 1 ==> ls[k] == ls[1..][k - 1];
    Grouped("\n", Breaks(b), ls[b + 1].text[4..]);
  }

  lemma NotOverBlank(ls: seq<Line>)
    requires ls != [] && ls[0].Blank? && NoneNext(ls[1..])
    ensures NoneNext(ls)
  {
    forall b | Next(ls, b) ensures Next(ls[1..], b - 1) {
      assert forall k :: 0 < k <= b ==> ls[k] == ls[1..][k - 1];
    }
  }

  // ---------------------------------------------------------------- the source text of a block

  /** Reads code line by line and puts the indentation of every line that is not empty back. */
  function Reindent(code: string, lineStart: bool): string {
    if code == "" then ""
    else if code[0] == '\n' then "\n" + Reindent(code[1..], true)
    else (if lineStart then "    " else "") + [code[0]] + Reindent(code[1..], false)
  }

  /** The source text of some lines. */
  function SourceText(ls: seq<Line>): string
    requires CodeLines(ls)
  {
    if ls == [] then ""
    else
      var l := ls[|ls| - 1];
      SourceText(ls[..|ls| - 1]) + ((if l.Blank? then "" else l.text) + "\n")
  }

  /** Lines that hold no line end, nor nothing but their indentation. */
  predicate ProperLines(ls: seq<Line>) {
    forall k :: 0 <= k < |ls| && ls[k].Text? ==> '\n' !in ls[k].text && ls[k].text != "    "
  }

  lemma {:induction false} WithinLine(line: string, rest: string)
    requires '\n' !in line
    ensures Reindent(line + ("\n" + rest), false) == line + ("\n" + Reindent(rest, true))
    decreases |line|
  {
    var s := line + ("\n" + rest);
    if line == "" {
      assert s == "\n" + rest && s[1..] == rest;
    } else {
      assert s[0] == line[0] && s[1..] == line[1..] + ("\n" + rest);
      WithinLine(line[1..], rest);
      assert line == [line[0]] + line[1..];
    }
  }

  /** A line that is not empty. */
  lemma FullLineBack(line: string, rest: string)
    requires line != "" && '\n' !in line
    ensures Reindent(line + ("\n" + rest), true) == "    " + (line + ("\n" + Reindent(rest, true)))
  {
    var s, more := line + ("\n" + rest), line[1..] + ("\n" + Reindent(rest, true));
    assert s[0] == line[0] && s[1..] == line[1..] + ("\n" + rest);
    WithinLine(line[1..], rest);
    assert [line[0]] + more == line + ("\n" + Reindent(rest, true));
    Grouped("    ", [line[0]], more);
  }

  lemma EmptyLineBack(rest: string)
    ensures Reindent("\n" + rest, true) == "\n" + Reindent(rest, true)
  {
    assert ("\n" + rest)[1..] == rest;
  }

  lemma Unindented(text: string)
    requires |text| >= 4 && text[..4] == "    "
    ensures text == "    " + text[4..]
  {
  }

  lemma LineBack(l: Line, rest: string)
    requires l.Blank? || Indented(l)
    requires l.Text? ==> '\n' !in l.text && l.text != "    "
    ensures Reindent(Image(l) + rest, true) == ((if l.Blank? then "" else l.text) + "\n") + Reindent(rest, true)
  {
    var more := Reindent(rest, true);
    if l.Blank? {
      EmptyLineBack(rest);
      assert "" + "\n" == "\n";
    } else {
      var line := l.text[4..];
      Unindented(l.text);
      FullLineBack(line, rest);
      Grouped(line, "\n", rest);
      Grouped("    ", line, "\n" + more);
      Grouped(l.text, "\n", more);
    }
  }

  lemma {:induction false} LinesBack(ls: seq<Line>, rest: string)
    requires CodeLines(ls) && ProperLines(ls)
    ensures Reindent(Images(ls) + rest, true) == SourceText(ls) + Reindent(rest, true)
    decreases |ls|
  {
    if ls == [] {
      assert Images(ls) + rest == rest;
    } else {
      var n := |ls| - 1;
      Grouped(Images(ls[..n]), Image(ls[n]), rest);
      LinesBack(ls[..n], Image(ls[n]) + rest);
      LineBack(ls[n], rest);
      Grouped(SourceText(ls[..n]), (if ls[n].Blank? then "" else ls[n].text) + "\n", Reindent(rest, true));
    }
  }

  /** Putting four spaces back in front of every line of the code that is not empty gives the source text
      of the block back. */
  lemma CodeComesBack(ls: seq<Line>)
    requires CodeLines(ls) && ProperLines(ls)
    ensures Reindent(Images(ls), true) == SourceText(ls)
  {
    LinesBack(ls, "");
    assert Images(ls) + "" == Images(ls) && SourceText(ls) + "" == SourceText(ls);
  }

  /** A place within a token group. */
  class Cursor {
    const lines: seq<Line>
    var at: nat

    ghost function Ahead(): seq<Line>
      requires at <= |lines|
      reads this
    {
      lines[at..]
    }

    constructor (lines: seq<Line>)
      ensures this.lines == lines && at == 0
    {
      this.lines, at := lines, 0;
    }

    /** The next line of a code block with the blank lines in front of it. Looks ahead over any
        number of blank lines and comes back if they lead nowhere. */
    method IsCodeBlockLine() returns (r: Option<string>, ghost b: nat)
      requires at < |lines|
      modifies this
      ensures r.Some? ==> Next(old(Ahead()), b) && at == old(at) + b + 1 && r.value == Code(old(Ahead()), b)
      ensures r.None? ==> at == old(at) && NoneNext(old(Ahead()))
      decreases |lines| - at
    {
      ghost var before := Ahead();
      b := 0;
      if lines[at].Blank? {
        at := at + 1;
        if at != |lines| {
          r, b := IsCodeBlockLine();
          if r.Some? {
            OverBlank(before, b);
            return Some("\n" + r.value), b + 1;
          }
          NotOverBlank(before);
        }
        at := at - 1;
      } else if lines[at].Text? {
        var line := lines[at].text;
        if |line| >= 4 {
          var si := 0;
          while si != 4 && line[si] == ' '
            invariant 0 <= si <= 4 && forall k :: 0 <= k < si ==> line[k] == ' '
          {
            si := si + 1;
          }
          if si == 4 {
            at := at + 1;
            assert Indented(before[0]) && "" + line[4..] == line[4..];
            return Some(line[si..]), 0;
          }
        }
      }
      return None, 0;
    }

    /** The body of the loop: takes in one more indented line, if one can be reached. */
    method ExtendBlock(out: string, ghost ls: seq<Line>, ghost n: nat)
      returns (more: bool, out': string, ghost n': nat)
      requires at < |lines| && Taken(out, ls, n) && Ahead() == ls[n..]
      modifies this
      ensures at <= |lines| && Taken(out', ls, n')
      ensures more ==> n < n' && at == old(at) + (n' - n)
      ensures !more ==> n' == n && at == old(at) && Longest(ls, n)
    {
      var contents, b := IsCodeBlockLine();
      if contents.None? {
        LongestIs(ls, n);
        return false, out, n;
      }
      BlockGrows(ls, n, b, out, contents.value);
      return true, out + (contents.value + "\n"), n + b + 1;
    }

    /** The code block that starts here. */
    method ParseCodeBlock() returns (r: Option<string>)
      requires at < |lines|
      modifies this
      ensures r.Some? <==> Indented(old(Ahead())[0])
      ensures r.Some? ==> old(at) < at <= |lines| && Longest(old(Ahead()), at - old(at))
      ensures r.Some? ==> r == Some(Images(old(Ahead())[..at - old(at)]))
      ensures r.None? ==> at == old(at)
    {
      ghost var ls, start := Ahead(), at;
      if lines[at].Blank? {
        return None;
      }
      var contents, b := IsCodeBlockLine();
      if contents.None? {
        assert !Next(ls, 0);
        return None;
      }
      FirstBlock(ls, b);
      var out := contents.value + "\n";
      var more := true;
      ghost var n := b + 1;
      while at != |lines| && more
        invariant start < at <= |lines| && at == start + n
        invariant Taken(out, ls, n)
        invariant !more ==> Longest(ls, n)
        decreases more, |lines| - at
      {
        assert Ahead() == ls[n..];
        more, out, n := ExtendBlock(out, ls, n);
      }
      if at == |lines| {
        AtTheEnd(ls, n);
      }
      return Some(out);
    }
  }
}
