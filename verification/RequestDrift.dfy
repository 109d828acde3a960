/** What printing a request and parsing it again does to it. */
module RequestDrift {
  import opened Wrappers
  import opened Requests

  // ---------------------------------------------------------------- words of the first line

  lemma {:induction false} OneWord(w: string)
    requires ' ' !in w
    ensures Words(w) == [w]
    decreases |w|
  {
    if w != "" {
      OneWord(w[1..]);
      assert w == [w[0]] + w[1..];
    }
  }

  lemma {:induction false} NextWord(w: string, rest: string)
    requires ' ' !in w
    ensures Words(w + ([' '] + rest)) == [w] + Words(rest)
    decreases |w|
  {
    var s := w + ([' '] + rest);
    if w == "" {
      assert s[1..] == rest;
    } else {
      NextWord(w[1..], rest);
      assert s[1..] == w[1..] + ([' '] + rest);
      assert w == [w[0]] + w[1..];
    }
  }

  function Joined(words: seq<string>): string
    requires words != []
  {
    if |words| == 1 then words[0] else words[0] + ([' '] + Joined(words[1..]))
  }

  lemma JoinedGrows(c: char, words: seq<string>)
    requires words != []
    ensures Joined([[c] + words[0]] + words[1..]) == [c] + Joined(words)
  {
    assert ([[c] + words[0]] + words[1..])[1..] == words[1..];
    if |words| > 1 {
      assert ([c] + words[0]) + ([' '] + Joined(words[1..])) == [c] + (words[0] + ([' '] + Joined(words[1..])));
    }
  }

  /** No word holds a space, and the words joined by spaces are the line. */
  lemma {:induction false} WordsJoin(s: string)
    ensures Joined(Words(s)) == s
    ensures forall i :: 0 <= i < |Words(s)| ==> ' ' !in Words(s)[i]
    decreases |s|
  {
    if s != "" {
      var rest := Words(s[1..]);
      WordsJoin(s[1..]);
      assert s == [s[0]] + s[1..];
      if s[0] == ' ' {
        assert ([""] + rest)[1..] == rest;
        assert "" + ([' '] + s[1..]) == s;
      } else {
        JoinedGrows(s[0], rest);
      }
    }
  }

  predicate FirstOk(m: Message) {
    Verb(m.verb) && ' ' !in m.path && ' ' !in m.version
  }

  lemma FirstLineWords(m: Message)
    requires FirstOk(m)
    ensures Words(FirstLine(m)) == [m.verb, m.path, m.version]
  {
    assert ' ' !in m.verb;
    NextWord(m.verb, m.path + ([' '] + m.version));
    NextWord(m.path, m.version);
    OneWord(m.version);
    assert [m.verb] + ([m.path] + [m.version]) == [m.verb, m.path, m.version];
  }

  lemma FirstLineFrom(line: string)
    requires |Words(line)| == 3
    ensures var w := Words(line);
            line == w[0] + ([' '] + (w[1] + ([' '] + w[2]))) && ' ' !in w[1] && ' ' !in w[2]
  {
    var w := Words(line);
    WordsJoin(line);
    assert w == [w[0], w[1], w[2]];
    var v := w[1..];
    assert Joined(v[1..]) == w[2];
    assert Joined(v) == w[1] + ([' '] + w[2]);
  }

  // ---------------------------------------------------------------- field lines

  lemma NoColonBefore(f: Field, j: int)
    requires !Contains(f.key, COLON) && 0 <= j < |f.key|
    ensures !At(FieldLine(f), COLON, j)
  {
    var s := FieldLine(f);
    if j + 2 <= |f.key| {
      assert s[j..j + 2] == f.key[j..j + 2];
      assert !At(f.key, COLON, j);
    } else {
      assert s[j..j + 2][1] == s[j + 1] == ':';
    }
  }

  lemma FieldLineParsed(f: Field)
    requires !Contains(f.key, COLON)
    ensures ParseField(FieldLine(f)) == Some(f)
  {
    var s := FieldLine(f);
    PatAt(f.key, COLON, f.value);
    forall j | 0 <= j < |f.key| ensures !At(s, COLON, j) {
      NoColonBefore(f, j);
    }
    FindIs(s, COLON, |f.key|);
    assert s[..|f.key|] == f.key && s[|f.key| + 2..] == f.value;
  }

  lemma PrefixAt(s: string, pat: string, k: nat, j: int)
    requires k <= |s|
    ensures At(s[..k], pat, j) ==> At(s, pat, j)
  {
    if At(s[..k], pat, j) {
      assert s[..k][j..j + |pat|] == s[j..j + |pat|];
    }
  }

  lemma NotInside(s: string, pat: string, k: nat)
    requires FirstAt(s, pat, k) && pat != ""
    ensures !Contains(s[..k], pat)
  {
    forall j | 0 <= j <= |s[..k]| ensures !At(s[..k], pat, j) {
      PrefixAt(s, pat, k, j);
    }
  }

  lemma ParsedField(line: string)
    ensures ParseField(line).Some? ==>
              FieldLine(ParseField(line).value) == line && !Contains(ParseField(line).value.key, COLON)
  {
    var at := Find(line, COLON);
    if at.Some? {
      NotInside(line, COLON, at.value);
      assert line == line[..at.value] + (line[at.value..at.value + 2] + line[at.value + 2..]);
    }
  }

  predicate KeysOk(fs: seq<Field>) {
    forall i :: 0 <= i < |fs| ==> !Contains(fs[i].key, COLON)
  }

  function FieldLines(fs: seq<Field>): (r: seq<string>)
    ensures |r| == |fs|
  {
    seq(|fs|, i requires 0 <= i < |fs| => FieldLine(fs[i]))
  }

  lemma LinesAre(m: Message)
    ensures Lines(m) == [FirstLine(m)] + FieldLines(m.fields)
  {
  }

  lemma {:induction false} FieldLinesParsed(fs: seq<Field>)
    requires KeysOk(fs)
    ensures ParseFields(FieldLines(fs)) == Some(fs)
    decreases |fs|
  {
    var lines := FieldLines(fs);
    if fs != [] {
      var n := |fs| - 1;
      FieldLinesParsed(fs[..n]);
      FieldLineParsed(fs[n]);
      assert lines[..n] == FieldLines(fs[..n]);
      assert fs == fs[..n] + [fs[n]];
    }
  }

  lemma {:induction false} ParsedFields(lines: seq<string>)
    ensures ParseFields(lines).Some? ==>
              FieldLines(ParseFields(lines).value) == lines && KeysOk(ParseFields(lines).value)
    decreases |lines|
  {
    if lines != [] && ParseFields(lines).Some? {
      var n := |lines| - 1;
      ParsedFields(lines[..n]);
      ParsedField(lines[n]);
      assert lines == lines[..n] + [lines[n]];
    }
  }

  // ---------------------------------------------------------------- heads

  /** The requests whose lines can be told apart again once they are printed: no space within a path
      or a version, no ": " within a key, and no line break within a line. */
  predicate Good(m: Message) {
    FirstOk(m) && KeysOk(m.fields) && LinesOk(Lines(m))
  }

  lemma HeadParsed(m: Message)
    requires FirstOk(m) && KeysOk(m.fields)
    ensures ParseHead(Lines(m), m.body) == Some(m)
  {
    LinesAre(m);
    FirstLineWords(m);
    FieldLinesParsed(m.fields);
  }

  lemma ParsedHead(lines: seq<string>, body: string)
    requires ParseHead(lines, body).Some?
    ensures var m := ParseHead(lines, body).value; FirstOk(m) && KeysOk(m.fields) && Lines(m) == lines && m.body == body
  {
    var m := ParseHead(lines, body).value;
    LinesAre(m);
    FirstLineFrom(lines[0]);
    ParsedFields(lines[1..]);
    assert lines == [lines[0]] + lines[1..];
  }

  lemma {:induction false} PiecesHoldNoBreak(s: string)
    ensures forall i :: 0 <= i < |SplitLines(s)| ==> !Contains(SplitLines(s)[i], CRLF)
    decreases |s|
  {
    var at := Find(s, CRLF);
    if at.Some? {
      NotInside(s, CRLF, at.value);
      SkipShrinks(s[at.value + 2..]);
      PiecesHoldNoBreak(SkipBreaks(s[at.value..]));
    }
  }

  lemma NoEmptyLine(m: Message)
    requires Verb(m.verb)
    ensures forall i :: 0 <= i < |Lines(m)| ==> Lines(m)[i] != ""
  {
    LinesAre(m);
    forall i | 0 <= i < |Lines(m)| ensures Lines(m)[i] != "" {
      if i > 0 {
        assert Lines(m)[i] == FieldLine(m.fields[i - 1]);
      }
    }
  }

  predicate EndsInReturn(s: string) {
    s != "" && s[|s| - 1] == '\r'
  }

  lemma {:induction false} SkippedEndsInReturn(s: string)
    requires EndsInReturn(s)
    ensures EndsInReturn(SkipBreaks(s))
    decreases |s|
  {
    if CRLF <= s {
      assert s[1] == '\n';
      SkippedEndsInReturn(s[2..]);
    }
  }

  /** The head keeps the carriage return behind it, and so does its last line. */
  lemma {:induction false} LastPieceEndsInReturn(s: string)
    requires EndsInReturn(s)
    ensures SplitLines(s) != [] && EndsInReturn(SplitLines(s)[|SplitLines(s)| - 1])
    decreases |s|
  {
    var at := Find(s, CRLF);
    if at.Some? {
      SkipShrinks(s[at.value + 2..]);
      SkippedEndsInReturn(s[at.value..]);
      LastPieceEndsInReturn(SkipBreaks(s[at.value..]));
    }
  }

  function LastLine(m: Message): string {
    Lines(m)[|m.fields|]
  }

  /** Everything the parser accepts is good, and its last line ends in a carriage return. */
  lemma ParsedIsGood(req: string)
    ensures Parse(req).Some? ==> Good(Parse(req).value) && EndsInReturn(LastLine(Parse(req).value))
  {
    if Parse(req).Some? {
      var k := Find(req, END_OF_HEAD).value;
      var head := req[..k + 1];
      ParsedHead(SplitLines(head), req[k + 4..]);
      PiecesHoldNoBreak(head);
      NoEmptyLine(Parse(req).value);
      assert req[k] == req[k..k + 4][0];
      LastPieceEndsInReturn(head);
    }
  }

  lemma NoVerbInFront(head: string, body: string)
    requires SplitLines(head) != [] && ' ' !in SplitLines(head)[0]
    ensures ParseHead(SplitLines(head), body).None?
  {
    OneWord(SplitLines(head)[0]);
  }

  /** A text that begins with a line break has an empty first line, or no line but a carriage return,
      and is rejected. */
  lemma BreakFirstIsRejected(req: string)
    requires CRLF <= req
    ensures Parse(req).None?
  {
    var end := Find(req, END_OF_HEAD);
    if end.Some? {
      var head := req[..end.value + 1];
      if end.value == 0 {
        assert head == ['\r'];
        assert !Contains(head, CRLF);
      } else {
        assert CRLF <= head;
        PrefixIsAt(head, CRLF);
        FindIs(head, CRLF, 0);
        SkipShrinks(head[2..]);
        assert SplitLines(head)[0] == "";
      }
      NoVerbInFront(head, req[end.value + 4..]);
    }
  }

  // ---------------------------------------------------------------- drift

  /** `n` copies of a text. */
  function Copies(s: string, n: nat): string {
    if n == 0 then "" else Copies(s, n - 1) + s
  }

  /** A carriage return for the last field, or for the version where there are no fields, and a line
      break for the body: `n` of each. */
  function Drift(m: Message, n: nat): Message {
    var body := m.body + Copies(CRLF, n);
    if m.fields == [] then m.(version := m.version + Copies(['\r'], n), body := body)
    else
      var k := |m.fields| - 1;
      var last := Field(m.fields[k].key, m.fields[k].value + Copies(['\r'], n));
      m.(fields := m.fields[..k] + [last], body := body)
  }

  lemma CopiesOnce(s: string)
    ensures Copies(s, 1) == s
  {
    assert Copies(s, 0) == "";
  }

  lemma DriftedLines(m: Message)
    ensures var k := |Lines(m)| - 1; Lines(Drift(m, 1)) == Lines(m)[..k] + [Lines(m)[k] + ['\r']]
  {
    var d, k := Drift(m, 1), |Lines(m)| - 1;
    CopiesOnce(['\r']);
    if m.fields == [] {
      assert FirstLine(d) == FirstLine(m) + ['\r'];
    } else {
      assert FieldLine(d.fields[k - 1]) == FieldLine(m.fields[k - 1]) + ['\r'];
      assert Lines(d)[k] == Lines(m)[k] + ['\r'];
      assert forall i :: 0 <= i < k ==> Lines(d)[i] == Lines(m)[i];
    }
  }

  lemma ReturnMakesNoBreak(l: string)
    ensures Contains(l + ['\r'], CRLF) <==> Contains(l, CRLF)
  {
    var s := l + ['\r'];
    forall k | 0 <= k <= |s| ensures At(s, CRLF, k) ==> At(l, CRLF, k) {
      if At(s, CRLF, k) {
        assert s[k..k + 2][1] == s[k + 1];
        assert s[k..k + 2] == l[k..k + 2];
      }
    }
    forall k | 0 <= k <= |l| ensures At(l, CRLF, k) ==> At(s, CRLF, k) {
      if At(l, CRLF, k) {
        assert s[k..k + 2] == l[k..k + 2];
      }
    }
  }

  lemma DriftedFirst(m: Message)
    ensures FirstOk(Drift(m, 1)) <==> FirstOk(m)
    ensures KeysOk(Drift(m, 1).fields) <==> KeysOk(m.fields)
  {
    var d := Drift(m, 1);
    CopiesOnce(['\r']);
    assert |d.fields| == |m.fields| && forall i :: 0 <= i < |m.fields| ==> d.fields[i].key == m.fields[i].key;
  }

  lemma DriftedBreaks(m: Message)
    ensures LinesOk(Lines(Drift(m, 1))) <==> (forall i :: 0 <= i < |Lines(m)| ==> !Contains(Lines(m)[i], CRLF))
    requires Verb(m.verb)
  {
    var d, k := Drift(m, 1), |Lines(m)| - 1;
    DriftedLines(m);
    NoEmptyLine(d);
    ReturnMakesNoBreak(Lines(m)[k]);
    assert forall i :: 0 <= i < k ==> Lines(d)[i] == Lines(m)[i];
    assert Lines(d)[k] == Lines(m)[k] + ['\r'];
  }

  lemma DriftKeepsGood(m: Message)
    ensures Good(Drift(m, 1)) <==> Good(m)
  {
    DriftedFirst(m);
    if Verb(m.verb) {
      DriftedBreaks(m);
      NoEmptyLine(m);
    }
  }

  lemma Regroup(a: string, b: string, c: string, d: string)
    ensures a + (b + ((c + d) + b)) == ((a + (b + c)) + d) + b
  {
  }

  lemma {:induction false} UnlinesLast(lines: seq<string>, last: string)
    ensures Unlines(lines + [last]) == (Unlines(lines) + last) + CRLF
    decreases |lines|
  {
    if lines == [] {
      assert [last][1..] == [];
      assert Unlines([]) == "";
      assert Unlines([last]) == last + (CRLF + "");
    } else {
      assert (lines + [last])[1..] == lines[1..] + [last];
      UnlinesLast(lines[1..], last);
      Regroup(lines[0], CRLF, Unlines(lines[1..]), last);
    }
  }

  lemma CutHead(head: string, rest: string, req: string)
    requires req == (head + CRLF) + (CRLF + rest)
    ensures |head| + 4 <= |req|
    ensures req[..|head| + 1] == head + ['\r'] && req[|head| + 4..] == rest
  {
    assert req == (head + ['\r']) + (['\n'] + (CRLF + rest));
    assert req == (head + CRLF + CRLF) + rest;
  }

  lemma HeadAndLast(m: Message, head: string)
    requires head == Unlines(Lines(m)[..|m.fields|]) + LastLine(m)
    ensures Unlines(Lines(m)) == head + CRLF
  {
    var lines, k := Lines(m), |m.fields|;
    assert lines == lines[..k] + [lines[k]];
    UnlinesLast(lines[..k], lines[k]);
  }

  /** A head that was printed is read back with the carriage return that follows it. */
  lemma HeadFound(m: Message, head: string, rest: string)
    requires Good(m)
    requires head == Unlines(Lines(m)[..|m.fields|]) + LastLine(m)
    ensures var req := Unlines(Lines(m)) + (CRLF + rest);
      && Find(req, END_OF_HEAD) == Some(|head|) && |head| + 4 <= |req|
      && req[..|head| + 1] == head + ['\r'] && req[|head| + 4..] == rest
  {
    var lines := Lines(m);
    HeadEnds(lines, rest);
    FindIs(Unlines(lines) + (CRLF + rest), END_OF_HEAD, |Unlines(lines)| - 2);
    HeadAndLast(m, head);
    CutHead(head, rest, Unlines(lines) + (CRLF + rest));
  }

  lemma HeadSplits(m: Message, head: string)
    requires Good(m)
    requires head == Unlines(Lines(m)[..|m.fields|]) + LastLine(m)
    ensures SplitLines(head + ['\r']) == Lines(Drift(m, 1))
  {
    var lines, k := Lines(m), |Lines(m)| - 1;
    ReturnMakesNoBreak(lines[k]);
    assert LineOk(lines[k]);
    SplitsBack(lines[..k], lines[k] + ['\r']);
    assert head + ['\r'] == Unlines(lines[..k]) + (lines[k] + ['\r']);
    DriftedLines(m);
  }

  lemma ParsedAt(req: string, k: nat)
    requires Find(req, END_OF_HEAD) == Some(k)
    ensures Parse(req) == ParseHead(SplitLines(req[..k + 1]), req[k + 4..])
  {
  }

  lemma ParsedAs(req: string, k: nat, head: string, rest: string, m: Message)
    requires Find(req, END_OF_HEAD) == Some(k) && req[..k + 1] == head && req[k + 4..] == rest
    requires ParseHead(SplitLines(head), rest) == Some(m)
    ensures Parse(req) == Some(m)
  {
    ParsedAt(req, k);
  }

  lemma SameHead(m: Message, body: string)
    ensures Lines(m.(body := body)) == Lines(m) && (Good(m.(body := body)) <==> Good(m))
  {
  }

  lemma DriftedHead(m: Message, rest: string)
    requires Good(m)
    ensures ParseHead(Lines(Drift(m, 1)), rest) == Some(Drift(m, 1).(body := rest))
  {
    DriftKeepsGood(m);
    SameHead(Drift(m, 1), rest);
    HeadParsed(Drift(m, 1).(body := rest));
  }

  /** A good request with any text behind its empty line: one carriage return too many is read. */
  lemma HeadParse(m: Message, rest: string, req: string)
    requires Good(m) && req == Unlines(Lines(m)) + (CRLF + rest)
    ensures Parse(req) == Some(Drift(m, 1).(body := rest))
  {
    var head := Unlines(Lines(m)[..|m.fields|]) + LastLine(m);
    HeadFound(m, head, rest);
    HeadSplits(m, head);
    DriftedHead(m, rest);
    ParsedAs(req, |head|, head + ['\r'], rest, Drift(m, 1).(body := rest));
  }

  /** Printing and parsing drifts by one step, for exactly the good requests. */
  lemma PrintParse(m: Message)
    ensures Good(m) <==> Parse(Print(m)) == Some(Drift(m, 1))
  {
    if Good(m) {
      HeadParse(m, m.body + CRLF, Print(m));
      CopiesOnce(CRLF);
    } else {
      ParsedIsGood(Print(m));
      DriftKeepsGood(m);
    }
  }

  /** The request whose head drifts to that of `m`. */
  function Undrifted(m: Message): Message
    requires EndsInReturn(LastLine(m))
  {
    if m.fields == [] then
      assert m.version != "" && m.version[|m.version| - 1] == LastLine(m)[|LastLine(m)| - 1];
      m.(version := m.version[..|m.version| - 1])
    else
      var k := |m.fields| - 1;
      var f := m.fields[k];
      assert f.value != "" && f.value[|f.value| - 1] == LastLine(m)[|LastLine(m)| - 1];
      m.(fields := m.fields[..k] + [Field(f.key, f.value[..|f.value| - 1])])
  }

  lemma UndriftedDrifts(m: Message)
    requires EndsInReturn(LastLine(m))
    ensures Drift(Undrifted(m), 1).(body := m.body) == m
  {
    CopiesOnce(['\r']);
    if m.fields == [] {
      assert m.version == m.version[..|m.version| - 1] + ['\r'];
    } else {
      var k := |m.fields| - 1;
      var f := m.fields[k];
      assert f.value == f.value[..|f.value| - 1] + ['\r'];
      assert m.fields == m.fields[..k] + [f];
    }
  }

  /** The parser can return a request if and only if it is good and its last line ends in a carriage
      return. */
  lemma ReturnableRequests(m: Message)
    ensures (exists req :: Parse(req) == Some(m)) <==> Good(m) && EndsInReturn(LastLine(m))
  {
    forall req | Parse(req) == Some(m) ensures Good(m) && EndsInReturn(LastLine(m)) {
      ParsedIsGood(req);
    }
    if Good(m) && EndsInReturn(LastLine(m)) {
      var u := Undrifted(m);
      UndriftedDrifts(m);
      SameHead(Drift(u, 1), m.body);
      DriftKeepsGood(u);
      var req := Unlines(Lines(u)) + (CRLF + m.body);
      HeadParse(u, m.body, req);
      assert Parse(req) == Some(m);
    }
  }

  lemma AppendTwice(a: string, b: string, c: string)
    ensures (a + b) + c == a + (b + c)
  {
  }

  lemma DriftAgain(m: Message, n: nat)
    ensures Drift(Drift(m, n), 1) == Drift(m, n + 1)
  {
    CopiesOnce(CRLF);
    CopiesOnce(['\r']);
    AppendTwice(m.body, Copies(CRLF, n), CRLF);
    if m.fields == [] {
      AppendTwice(m.version, Copies(['\r'], n), ['\r']);
    } else {
      var k := |m.fields| - 1;
      AppendTwice(m.fields[k].value, Copies(['\r'], n), ['\r']);
      assert Drift(m, n).fields[..k] == m.fields[..k];
    }
  }

  /** Printing and parsing `n` times. */
  function Reparsed(m: Message, n: nat): Option<Message> {
    if n == 0 then Some(m)
    else
      match Reparsed(m, n - 1)
      case None => None
      case Some(before) => Parse(Print(before))
  }

  lemma NoDrift(m: Message)
    ensures Drift(m, 0) == m
  {
    assert forall s: string :: s + "" == s;
    if m.fields != [] {
      var k := |m.fields| - 1;
      assert m.fields == m.fields[..k] + [m.fields[k]];
    }
  }

  lemma OneRound(m: Message, n: nat, before: Message, after: Message)
    requires Reparsed(m, n) == Some(before) && Parse(Print(before)) == Some(after)
    ensures Reparsed(m, n + 1) == Some(after)
  {
  }

  /** After `n` rounds everything is as it was, but for `n` carriage returns and `n` line breaks. */
  lemma {:induction false} RoundsDrift(m: Message, n: nat)
    requires Good(m)
    ensures Reparsed(m, n) == Some(Drift(m, n)) && Good(Drift(m, n))
  {
    if n == 0 {
      NoDrift(m);
    } else {
      var before := Drift(m, n - 1);
      RoundsDrift(m, n - 1);
      PrintParse(before);
      DriftAgain(m, n - 1);
      DriftKeepsGood(before);
      OneRound(m, n - 1, before, Drift(m, n));
    }
  }

  /** Every accepted text drifts so. */
  lemma AcceptedRoundsDrift(req: string, n: nat)
    requires Parse(req).Some?
    ensures Reparsed(Parse(req).value, n) == Some(Drift(Parse(req).value, n))
  {
    ParsedIsGood(req);
    RoundsDrift(Parse(req).value, n);
  }

  predicate LineFeedFree(m: Message) {
    '\n' !in m.path && '\n' !in m.version
    && forall i :: 0 <= i < |m.fields| ==> '\n' !in m.fields[i].key && '\n' !in m.fields[i].value
  }

  lemma NoFeedNoBreak(s: string)
    requires '\n' !in s
    ensures !Contains(s, CRLF)
  {
    forall k | 0 <= k <= |s| ensures !At(s, CRLF, k) {
      if k + 2 <= |s| {
        assert s[k..k + 2][1] == s[k + 1] != '\n';
      }
    }
  }

  /** Line-feed-free parts are enough. */
  lemma LineFeedFreeIsGood(m: Message)
    requires FirstOk(m) && KeysOk(m.fields) && LineFeedFree(m)
    ensures Good(m)
  {
    NoEmptyLine(m);
    LinesAre(m);
    forall i | 0 <= i < |Lines(m)| ensures !Contains(Lines(m)[i], CRLF) {
      if i > 0 {
        assert Lines(m)[i] == FieldLine(m.fields[i - 1]);
      }
      NoFeedNoBreak(Lines(m)[i]);
    }
  }
}
