/** The line reader of the Markdown document: line breaks of every style, and tab expansion
    (Document::_getline and Document::read). */
module LineReader {
  import opened CharStreams

  /** cSpacesPerInitialTab */
  const INITIAL_TAB: nat := 4

  predicate IsBreak(c: char) {
    c == '\r' || c == '\n'
  }

  predicate BreakFree(s: string) {
    forall i :: 0 <= i < |s| ==> !IsBreak(s[i])
  }

  // ---------------------------------------------------------------- tabs

  function Spaces(n: nat): (r: string)
    ensures |r| == n && forall i :: 0 <= i < n ==> r[i] == ' '
  {
    seq(n, _ => ' ')
  }

  predicate Indent(raw: string) {
    forall i :: 0 <= i < |raw| ==> raw[i] == ' ' || raw[i] == '\t'
  }

  /** The width of a tab that stands behind `raw`. */
  function Width(raw: string, tab: nat): (w: nat)
    requires tab > 0
    ensures w > 0
  {
    if Indent(raw) then INITIAL_TAB else tab
  }

  /** What one more character adds to the line that `raw` became. */
  function Piece(raw: string, line: string, c: char, tab: nat): string
    requires tab > 0
  {
    if c == '\t' then var w := Width(raw, tab); Spaces(w - |line| % w) else [c]
  }

  /** A raw line with its tabs expanded. */
  function Expand(raw: string, tab: nat): string
    requires tab > 0
  {
    if raw == "" then ""
    else
      var n := |raw| - 1;
      var line := Expand(raw[..n], tab);
      line + Piece(raw[..n], line, raw[n], tab)
  }

  /** The column at which character `k` of the raw line ends up. */
  function Column(raw: string, k: nat, tab: nat): nat
    requires k <= |raw| && tab > 0
  {
    |Expand(raw[..k], tab)|
  }

  lemma ExpandOnce(raw: string, k: nat, tab: nat)
    requires k < |raw| && tab > 0
    ensures Expand(raw[..k + 1], tab) == Expand(raw[..k], tab) + Piece(raw[..k], Expand(raw[..k], tab), raw[k], tab)
  {
    assert raw[..k + 1][..k] == raw[..k];
  }

  lemma {:induction false} ExpandedPrefix(raw: string, k: nat, tab: nat)
    requires k <= |raw| && tab > 0
    ensures Expand(raw[..k], tab) <= Expand(raw, tab)
    decreases |raw|
  {
    if k == |raw| {
      assert raw[..k] == raw;
    } else {
      var n := |raw| - 1;
      ExpandedPrefix(raw[..n], k, tab);
      assert raw[..n][..k] == raw[..k];
    }
  }

  lemma Distributes(w: int, q: int)
    ensures w * (q + 1) == w * q + w
  {
  }

  lemma Subtracts(w: int, a: int, b: int)
    ensures w * (a - b) == w * a - w * b
  {
  }

  lemma Product(w: int, e: int)
    requires w > 0 && e >= 0
    ensures w * e >= 0 && w * (e + 1) == w * e + w && w * (-1 - e) == -w - w * e
  {
  }

  lemma TooFar(w: int, d: int)
    requires w > 0
    ensures d >= 1 ==> w * d >= w
    ensures d <= -1 ==> w * d <= -w
    ensures d == 0 ==> w * d == 0
  {
    Distributes(w, d);
    if d >= 1 {
      Product(w, d - 1);
    } else if d <= -1 {
      Product(w, -1 - d);
    }
  }

  lemma MultipleIs(x: nat, w: nat, q: nat)
    requires w > 0 && x == w * q
    ensures x % w == 0
  {
    var d := q - x / w;
    assert x == w * (x / w) + x % w;
    Subtracts(w, q, x / w);
    TooFar(w, d);
  }

  lemma TabStops(a: nat, w: nat)
    requires w > 0
    ensures (a + (w - a % w)) % w == 0 && 0 < w - a % w <= w
  {
    var q := a / w;
    assert a == w * q + a % w;
    Distributes(w, q);
    MultipleIs(a + (w - a % w), w, q + 1);
  }

  lemma Placed(before: string, piece: string, line: string)
    requires before + piece <= line
    ensures forall i :: |before| <= i < |before| + |piece| ==> line[i] == piece[i - |before|]
  {
    assert forall i :: |before| <= i < |before| + |piece| ==> line[i] == (before + piece)[i];
  }

  /** Where every character goes: a tab fills up to the next multiple of its width with spaces,
      any other character takes one column and stays itself. */
  lemma CharacterPlaced(raw: string, k: nat, tab: nat)
    requires k < |raw| && tab > 0
    ensures Column(raw, k, tab) < Column(raw, k + 1, tab) <= |Expand(raw, tab)|
    ensures var from, to, line := Column(raw, k, tab), Column(raw, k + 1, tab), Expand(raw, tab);
            if raw[k] == '\t' then
              var w := Width(raw[..k], tab);
              to % w == 0 && to - from <= w && forall i :: from <= i < to ==> line[i] == ' '
            else
              to == from + 1 && line[from] == raw[k]
  {
    var before := Expand(raw[..k], tab);
    ExpandOnce(raw, k, tab);
    ExpandedPrefix(raw, k + 1, tab);
    TabStops(|before|, Width(raw[..k], tab));
    Placed(before, Piece(raw[..k], before, raw[k], tab), Expand(raw, tab));
  }

  /** Tab stops by their widths: four columns in the leading white space, and the given width behind it. */
  lemma TabStop(raw: string, k: nat, tab: nat)
    requires k < |raw| && raw[k] == '\t' && tab > 0
    ensures var from, to := Column(raw, k, tab), Column(raw, k + 1, tab);
            var w := if forall i :: 0 <= i < k ==> raw[i] in [' ', '\t'] then 4 else tab;
            to % w == 0 && 0 < to - from <= w
  {
    var before := Expand(raw[..k], tab);
    var w := if forall i :: 0 <= i < k ==> raw[i] in [' ', '\t'] then 4 else tab;
    assert Width(raw[..k], tab) == w by {
      assert forall i :: 0 <= i < k ==> raw[..k][i] == raw[i];
    }
    ExpandOnce(raw, k, tab);
    TabStops(|before|, w);
  }

  /** The line is nothing but the places of the raw characters, so no tab is left. */
  lemma {:induction false} NoTabLeft(raw: string, tab: nat)
    requires tab > 0
    ensures '\t' !in Expand(raw, tab)
    ensures |Expand(raw, tab)| >= |raw|
    decreases |raw|
  {
    if raw != "" {
      var n := |raw| - 1;
      NoTabLeft(raw[..n], tab);
      TabStops(|Expand(raw[..n], tab)|, Width(raw[..n], tab));
    }
  }

  // ---------------------------------------------------------------- breaks

  /** The characters in front of the first line break. */
  function Raw(s: string): (r: string)
    ensures r <= s && BreakFree(r)
    ensures |r| < |s| ==> IsBreak(s[|r|])
  {
    if s == "" || IsBreak(s[0]) then "" else [s[0]] + Raw(s[1..])
  }

  /** Skips one line break, which is one break character or two different ones. */
  function SkipBreak(s: string): string
    requires s != "" ==> IsBreak(s[0])
  {
    if s == "" then ""
    else if |s| > 1 && IsBreak(s[1]) && s[1] != s[0] then s[2..]
    else s[1..]
  }

  lemma RawIs(raw: string, rest: string)
    requires BreakFree(raw) && (rest != "" ==> IsBreak(rest[0]))
    ensures Raw(raw + rest) == raw
  {
    var s := raw + rest;
    var r := Raw(s);
    assert forall i :: 0 <= i < |raw| ==> s[i] == raw[i];
    assert forall i :: 0 <= i < |r| ==> s[i] == r[i];
    assert rest != "" ==> s[|raw|] == rest[0];
  }

  /** What is left behind the first line. */
  function Rest(s: string): (rest: string)
    ensures |rest| <= |s| && (s != "" ==> |rest| < |s|)
  {
    SkipBreak(s[|Raw(s)|..])
  }

  /** The raw lines of a text. Text behind the last break is a line unless it is empty. */
  function RawLines(s: string): seq<string>
    decreases |s|
  {
    if s == "" then [] else [Raw(s)] + RawLines(Rest(s))
  }

  datatype LineToken = BlankLine(line: string) | RawText(text: string)

  /** The token of a line. `blank` is the regular expression behind isBlankLine. */
  function TokenOf(line: string, blank: string -> bool): LineToken {
    if blank(line) then BlankLine(line) else RawText(line)
  }

  function Tokens(raws: seq<string>, tab: nat, blank: string -> bool): seq<LineToken>
    requires tab > 0
  {
    if raws == [] then [] else [TokenOf(Expand(raws[0], tab), blank)] + Tokens(raws[1..], tab, blank)
  }

  /** What a document becomes: one token for each line. */
  function Document(s: string, tab: nat, blank: string -> bool): seq<LineToken>
    requires tab > 0
  {
    Tokens(RawLines(s), tab, blank)
  }

  lemma FirstToken(s: string, tab: nat, blank: string -> bool)
    requires tab > 0 && s != ""
    ensures Document(s, tab, blank) == [TokenOf(Expand(Raw(s), tab), blank)] + Document(Rest(s), tab, blank)
  {
    assert RawLines(s)[0] == Raw(s) && RawLines(s)[1..] == RawLines(Rest(s));
  }

  lemma {:induction false} TokensAt(raws: seq<string>, tab: nat, blank: string -> bool, i: nat)
    requires tab > 0 && i < |raws|
    ensures |Tokens(raws, tab, blank)| == |raws|
    ensures var line := Expand(raws[i], tab);
            Tokens(raws, tab, blank)[i] == if blank(line) then BlankLine(line) else RawText(line)
    decreases |raws|
  {
    if |raws| > 1 {
      TokensAt(raws[1..], tab, blank, if i == 0 then 0 else i - 1);
    }
  }

  /** The document has one token for each line, in order: a blank one exactly where the expanded line
      matches the expression for blank lines. */
  lemma LinesInOrder(s: string, tab: nat, blank: string -> bool)
    requires tab > 0
    ensures var raws, doc := RawLines(s), Document(s, tab, blank);
      && |doc| == |raws|
      && forall i :: 0 <= i < |raws| ==>
           doc[i] == if blank(Expand(raws[i], tab)) then BlankLine(Expand(raws[i], tab))
                     else RawText(Expand(raws[i], tab))
  {
    var raws := RawLines(s);
    forall i | 0 <= i < |raws|
      ensures |Document(s, tab, blank)| == |raws|
      ensures Document(s, tab, blank)[i] == if blank(Expand(raws[i], tab)) then BlankLine(Expand(raws[i], tab))
                                            else RawText(Expand(raws[i], tab))
    {
      TokensAt(raws, tab, blank, i);
    }
  }

  // ---------------------------------------------------------------- line-ending styles

  /** The four line endings that _getline takes. */
  predicate Style(t: string) {
    t == ['\n'] || t == ['\r'] || t == ['\r', '\n'] || t == ['\n', '\r']
  }

  /** Every line closed by the same line ending, and text behind the last one. */
  function Closed(lines: seq<string>, t: string, last: string): string {
    if lines == [] then last else lines[0] + (t + Closed(lines[1..], t, last))
  }

  predicate AllBreakFree(lines: seq<string>) {
    forall i :: 0 <= i < |lines| ==> BreakFree(lines[i])
  }

  lemma ClosedStarts(lines: seq<string>, t: string, last: string)
    requires Style(t) && AllBreakFree(lines) && BreakFree(last)
    ensures var s := Closed(lines, t, last); s != "" && IsBreak(s[0]) ==> s[0] == t[0]
  {
  }

  lemma SkipsOne(t: string, rest: string)
    requires Style(t)
    requires rest != "" && IsBreak(rest[0]) ==> rest[0] == t[0]
    ensures SkipBreak(t + rest) == rest
  {
    if |t| == 1 {
      assert (t + rest)[1..] == rest;
    } else {
      assert (t + rest)[2..] == rest;
    }
  }

  lemma FirstLine(l: string, t: string, rest: string)
    requires Style(t) && BreakFree(l)
    requires rest != "" && IsBreak(rest[0]) ==> rest[0] == t[0]
    ensures Raw(l + (t + rest)) == l && Rest(l + (t + rest)) == rest
  {
    RawIs(l, t + rest);
    assert (l + (t + rest))[|l|..] == t + rest;
    SkipsOne(t, rest);
  }

  /** The lines of a text: the closed ones, and what stands behind the last break unless it is
      empty. */
  function WithLast(lines: seq<string>, last: string): seq<string> {
    if last == "" then lines else lines + [last]
  }

  lemma LastLine(last: string)
    requires BreakFree(last)
    ensures RawLines(last) == WithLast([], last)
  {
    RawIs(last, "");
    assert last + "" == last;
  }

  lemma LineBefore(lines: seq<string>, last: string)
    requires lines != []
    ensures WithLast(lines, last) == [lines[0]] + WithLast(lines[1..], last)
  {
  }

  /** Reading takes the lines apart again, whatever the style, with or without a break at the end. */
  lemma {:induction false} ClosedLines(lines: seq<string>, t: string, last: string)
    requires Style(t) && AllBreakFree(lines) && BreakFree(last)
    ensures RawLines(Closed(lines, t, last)) == WithLast(lines, last)
    decreases |lines|
  {
    if lines == [] {
      LastLine(last);
    } else {
      ClosedStarts(lines[1..], t, last);
      FirstLine(lines[0], t, Closed(lines[1..], t, last));
      ClosedLines(lines[1..], t, last);
      LineBefore(lines, last);
    }
  }

  lemma {:induction false} RawLinesAreBreakFree(s: string)
    ensures AllBreakFree(RawLines(s))
    decreases |s|
  {
    if s != "" {
      RawLinesAreBreakFree(Rest(s));
    }
  }

  /** Rewriting any text with line endings of one style, whatever it used before, leaves the
      document the same. */
  lemma StylesAgree(s: string, t: string, tab: nat, blank: string -> bool)
    requires Style(t) && tab > 0
    ensures Document(Closed(RawLines(s), t, ""), tab, blank) == Document(s, tab, blank)
  {
    RawLinesAreBreakFree(s);
    ClosedLines(RawLines(s), t, "");
  }

  // ---------------------------------------------------------------- the reader

  lemma BreakAt(s: string, raw: string, rest: string)
    requires BreakFree(raw) && rest != "" && IsBreak(rest[0]) && s == raw + rest
    ensures s != "" && Raw(s) == raw && Rest(s) == SkipBreak(rest)
  {
    RawIs(raw, rest);
    assert s[|raw|..] == rest;
  }

  lemma Moved(raw: string, c: char, rest: string)
    ensures raw + ([c] + rest) == (raw + [c]) + rest
  {
  }

  lemma Next(raw: string, rest: string)
    ensures rest != "" ==> raw + rest == raw + ([rest[0]] + rest[1..])
    ensures rest == "" ==> raw + rest == raw
  {
  }

  lemma AllRead(raw: string, tab: nat)
    requires BreakFree(raw) && tab > 0
    ensures Raw(raw) == raw && Rest(raw) == "" && (Expand(raw, tab) == "" <==> raw == "")
  {
    RawIs(raw, "");
    assert raw + "" == raw;
    NoTabLeft(raw, tab);
  }

  lemma LineGrows(raw: string, c: char, tab: nat)
    requires tab > 0
    ensures Expand(raw + [c], tab) == Expand(raw, tab) + Piece(raw, Expand(raw, tab), c, tab)
    ensures Indent(raw + [c]) <==> Indent(raw) && (c == ' ' || c == '\t')
  {
    var all := raw + [c];
    assert all[..|raw|] == raw && all[|raw|] == c;
    assert Indent(all) ==> forall i :: 0 <= i < |raw| ==> all[i] == raw[i];
  }

  /** What one character other than a line break adds. */
  method Grow(line: string, initialWhitespace: bool, c: char, tab: nat, ghost raw: string)
    returns (line': string, initialWhitespace': bool)
    requires tab > 0 && line == Expand(raw, tab) && initialWhitespace == Indent(raw)
    ensures line' == Expand(raw + [c], tab) && initialWhitespace' == Indent(raw + [c])
  {
    line', initialWhitespace' := line, initialWhitespace;
    LineGrows(raw, c, tab);
    if c == '\t' {
      var convert := if initialWhitespace then INITIAL_TAB else tab;
      line' := line + Spaces(convert - |line| % convert);
    } else {
      line' := line + [c];
      if c != ' ' { initialWhitespace' := false; }
    }
  }

  /** Takes the second character of a two-character line ending, if there is one. */
  method FinishBreak(input: CharStream, c: char)
    requires input.Valid() && input.good && IsBreak(c)
    modifies input
    ensures input.Valid() && input.Unread() == SkipBreak([c] + old(input.Unread()))
  {
    ghost var rest := input.Unread();
    assert ([c] + rest)[1..] == rest;
    var d := input.Get();
    if input.good && d != (if c == '\r' then '\n' else '\r') {
      input.Unget();
    } else if input.good {
      assert ([c] + rest)[2..] == rest[1..];
    }
  }

  /** Document::_getline. */
  method GetLine(input: CharStream, tab: nat) returns (line: string, ok: bool)
    requires input.Valid() && tab > 0
    modifies input
    ensures input.Valid()
    ensures ok == (old(input.Unread()) != "")
    ensures line == Expand(Raw(old(input.Unread())), tab)
    ensures input.Unread() == Rest(old(input.Unread()))
  {
    ghost var s := input.Unread();
    ghost var raw := "";
    line := "";
    var initialWhitespace := true;
    var c := input.Get();
    while input.good
      invariant input.Valid() && BreakFree(raw)
      invariant input.good ==> s == raw + ([c] + input.Unread())
      invariant !input.good ==> s == raw
      invariant line == Expand(raw, tab) && initialWhitespace == Indent(raw)
      decreases input.good, |input.Unread()|
    {
      if IsBreak(c) {
        BreakAt(s, raw, [c] + input.Unread());
        FinishBreak(input, c);
        return line, true;
      }
      line, initialWhitespace := Grow(line, initialWhitespace, c, tab, raw);
      Moved(raw, c, input.Unread());
      raw := raw + [c];
      ghost var rest := input.Unread();
      c := input.Get();
      Next(raw, rest);
    }
    AllRead(raw, tab);
    return line, line != "";
  }

  lemma AppendFirst(a: seq<LineToken>, x: LineToken, b: seq<LineToken>)
    ensures a + ([x] + b) == (a + [x]) + b
  {
  }

  /** Document::read. */
  method Read(input: CharStream, tab: nat, blank: string -> bool) returns (tokens: seq<LineToken>)
    requires input.Valid() && tab > 0
    modifies input
    ensures tokens == Document(old(input.Unread()), tab, blank)
    ensures input.Valid() && input.Unread() == ""
  {
    ghost var all := Document(input.Unread(), tab, blank);
    tokens := [];
    ghost var left := input.Unread();
    var line, more := GetLine(input, tab);
    while more
      invariant input.Valid() && more == (left != "") && input.Unread() == Rest(left)
      invariant line == Expand(Raw(left), tab)
      invariant all == tokens + Document(left, tab, blank)
      decreases |left|
    {
      FirstToken(left, tab, blank);
      AppendFirst(tokens, TokenOf(line, blank), Document(Rest(left), tab, blank));
      tokens := tokens + [if blank(line) then BlankLine(line) else RawText(line)];
      left := input.Unread();
      line, more := GetLine(input, tab);
    }
  }
}
