/** HTTP requests: parsing, printing, and what printing and parsing again do to them (the message
    format of section 3 of RFC 7230). */
module Requests {
  import opened Wrappers

  const CRLF: string := ['\r', '\n']

  const END_OF_HEAD: string := ['\r', '\n', '\r', '\n']

  const COLON: string := [':', ' ']

  datatype Field = Field(key: string, value: string)

  /** The parts of a request. */
  datatype Message = Message(verb: string, path: string, version: string, fields: seq<Field>, body: string)

  // ---------------------------------------------------------------- searching

  predicate At(s: string, pat: string, k: int) {
    0 <= k && k + |pat| <= |s| && s[k..k + |pat|] == pat
  }

  predicate Contains(s: string, pat: string) {
    exists k :: 0 <= k <= |s| && At(s, pat, k)
  }

  predicate FirstAt(s: string, pat: string, k: nat) {
    At(s, pat, k) && forall j :: 0 <= j < k ==> !At(s, pat, j)
  }

  lemma SameSlice(s: string, a: nat, b: nat)
    requires 1 <= a <= b <= |s|
    ensures s[a..b] == s[1..][a - 1..b - 1]
  {
    var t := s[1..];
    forall i | 0 <= i < b - a ensures s[a..b][i] == t[a - 1..b - 1][i] {
      assert s[a + i] == t[a - 1 + i];
    }
  }

  lemma ShiftAt(s: string, pat: string)
    requires s != ""
    ensures forall j :: 1 <= j ==> (At(s, pat, j) <==> At(s[1..], pat, j - 1))
  {
    forall j | 1 <= j ensures At(s, pat, j) <==> At(s[1..], pat, j - 1) {
      if j + |pat| <= |s| {
        SameSlice(s, j, j + |pat|);
      }
    }
  }

  /** The first occurrence of `pat`, as std::string::find gives it. */
  function Find(s: string, pat: string): (r: Option<nat>)
    ensures r.Some? ==> FirstAt(s, pat, r.value)
    ensures r.None? ==> !Contains(s, pat)
  {
    if pat <= s then Some(0)
    else if s == "" then None
    else
      ShiftAt(s, pat);
      match Find(s[1..], pat)
      case Some(k) => Some(k + 1)
      case None => None
  }

  lemma FindIs(s: string, pat: string, k: nat)
    requires FirstAt(s, pat, k)
    ensures Find(s, pat) == Some(k)
  {
    assert Contains(s, pat);
  }

  // ---------------------------------------------------------------- parsing

  /** Skips the line breaks at the start. */
  function SkipBreaks(s: string): string
    decreases |s|
  {
    if CRLF <= s then SkipBreaks(s[2..]) else s
  }

  lemma {:induction false} SkipShrinks(s: string)
    ensures |SkipBreaks(s)| <= |s|
    decreases |s|
  {
    if CRLF <= s {
      SkipShrinks(s[2..]);
    }
  }

  /** The pieces between runs of line breaks; nothing is left behind a break at the very end. */
  function SplitLines(s: string): seq<string>
    decreases |s|
  {
    match Find(s, CRLF)
    case None => if s == "" then [] else [s]
    case Some(k) => SkipShrinks(s[k + 2..]); [s[..k]] + SplitLines(SkipBreaks(s[k..]))
  }

  /** boost::split at every space. */
  function Words(s: string): (r: seq<string>)
    ensures r != []
  {
    if s == "" then [""]
    else
      var rest := Words(s[1..]);
      if s[0] == ' ' then [""] + rest else [[s[0]] + rest[0]] + rest[1..]
  }

  function ParseField(line: string): Option<Field> {
    match Find(line, COLON)
    case None => None
    case Some(k) => Some(Field(line[..k], line[k + 2..]))
  }

  function ParseFields(lines: seq<string>): Option<seq<Field>> {
    if lines == [] then Some([])
    else
      match (ParseFields(lines[..|lines| - 1]), ParseField(lines[|lines| - 1]))
      case (Some(fs), Some(f)) => Some(fs + [f])
      case _ => None
  }

  predicate Verb(s: string) {
    s == "GET" || s == "POST"
  }

  /** The part of a request in front of the body. */
  function ParseHead(lines: seq<string>, body: string): Option<Message> {
    if lines == [] then None
    else
      var words := Words(lines[0]);
      if |words| != 3 || !Verb(words[0]) then None
      else
        match ParseFields(lines[1..])
        case None => None
        case Some(fs) => Some(Message(words[0], words[1], words[2], fs, body))
  }

  /** Request::parse_raw_request. The head keeps the carriage return that ends its last line. */
  function Parse(req: string): Option<Message> {
    match Find(req, END_OF_HEAD)
    case None => None
    case Some(k) => ParseHead(SplitLines(req[..k + 1]), req[k + 4..])
  }

  // ---------------------------------------------------------------- printing

  function FirstLine(m: Message): string {
    m.verb + ([' '] + (m.path + ([' '] + m.version)))
  }

  function FieldLine(f: Field): string {
    f.key + (COLON + f.value)
  }

  function Lines(m: Message): seq<string> {
    [FirstLine(m)] + seq(|m.fields|, i requires 0 <= i < |m.fields| => FieldLine(m.fields[i]))
  }

  function Unlines(lines: seq<string>): string {
    if lines == [] then "" else lines[0] + (CRLF + Unlines(lines[1..]))
  }

  /** Request::ToString. */
  function Print(m: Message): string {
    Unlines(Lines(m)) + (CRLF + (m.body + CRLF))
  }

  // ---------------------------------------------------------------- lines are read back

  predicate LineOk(l: string) {
    l != "" && !Contains(l, CRLF)
  }

  predicate LinesOk(lines: seq<string>) {
    forall i :: 0 <= i < |lines| ==> LineOk(lines[i])
  }

  lemma AtSuffix(a: string, b: string, pat: string, j: int)
    requires j >= |a|
    ensures At(a + b, pat, j) <==> At(b, pat, j - |a|)
  {
    if j + |pat| <= |a + b| {
      assert (a + b)[j..j + |pat|] == b[j - |a|..j - |a| + |pat|];
    }
  }

  lemma NoBreakBefore(l: string, t: string, j: int)
    requires !Contains(l, CRLF) && 0 <= j < |l|
    ensures !At(l + (CRLF + t), CRLF, j)
  {
    var s := l + (CRLF + t);
    if j + 2 <= |l| {
      assert s[j..j + 2] == l[j..j + 2];
      assert !At(l, CRLF, j);
    } else {
      assert s[j..j + 2][1] == s[j + 1] == '\r';
    }
  }

  lemma BreakAt(l: string, t: string)
    ensures At(l + (CRLF + t), CRLF, |l|)
  {
    var s := l + (CRLF + t);
    assert s[|l|..|l| + 2] == CRLF;
  }

  lemma FirstBreak(l: string, t: string)
    requires !Contains(l, CRLF)
    ensures Find(l + (CRLF + t), CRLF) == Some(|l|)
  {
    BreakAt(l, t);
    forall j | 0 <= j < |l| ensures !At(l + (CRLF + t), CRLF, j) {
      NoBreakBefore(l, t, j);
    }
    FindIs(l + (CRLF + t), CRLF, |l|);
  }

  lemma EndIsBreak(s: string, j: int)
    ensures At(s, END_OF_HEAD, j) ==> At(s, CRLF, j) && At(s, CRLF, j + 2)
  {
    if At(s, END_OF_HEAD, j) {
      assert s[j..j + 2] == s[j..j + 4][..2] && s[j + 2..j + 4] == s[j..j + 4][2..];
    }
  }

  lemma AtHead(s: string, pat: string, j: int)
    requires pat != "" && 0 <= j < |s| && s[j] != pat[0]
    ensures !At(s, pat, j)
  {
    if j + |pat| <= |s| {
      assert s[j..j + |pat|][0] == s[j];
    }
  }

  /** The text behind a line break does not begin with another one. */
  lemma NoBreakAhead(lines: seq<string>, rest: string)
    requires lines != [] && LinesOk(lines)
    ensures !At(Unlines(lines) + rest, CRLF, 0)
  {
    var l, t := lines[0], Unlines(lines[1..]) + rest;
    assert Unlines(lines) + rest == l + (CRLF + t);
    NoBreakBefore(l, t, 0);
  }

  lemma BreaksBetween(l: string, t: string, j: int)
    requires !Contains(l, CRLF) && !At(t, CRLF, 0)
    requires 0 <= j < |l| + 2
    ensures !At(l + (CRLF + t), END_OF_HEAD, j)
  {
    var s := l + (CRLF + t);
    EndIsBreak(s, j);
    if j < |l| {
      NoBreakBefore(l, t, j);
    } else if j == |l| {
      assert s == (l + CRLF) + t;
      AtSuffix(l + CRLF, t, CRLF, j + 2);
    } else {
      assert s[j] == '\n';
      AtHead(s, END_OF_HEAD, j);
    }
  }

  lemma PatAt(a: string, pat: string, b: string)
    ensures At(a + (pat + b), pat, |a|)
  {
    assert (a + (pat + b))[|a|..|a| + |pat|] == pat;
  }

  lemma EndAt(l: string, rest: string)
    ensures At(l + (CRLF + (CRLF + rest)), END_OF_HEAD, |l|)
  {
    assert CRLF + (CRLF + rest) == END_OF_HEAD + rest;
    PatAt(l, END_OF_HEAD, rest);
  }

  lemma LastEnd(l: string, rest: string)
    requires !Contains(l, CRLF)
    ensures FirstAt(l + (CRLF + (CRLF + rest)), END_OF_HEAD, |l|)
  {
    var s := l + (CRLF + (CRLF + rest));
    EndAt(l, rest);
    forall j | 0 <= j < |l| ensures !At(s, END_OF_HEAD, j) {
      EndIsBreak(s, j);
      NoBreakBefore(l, CRLF + rest, j);
    }
  }

  lemma ShiftedEnd(l: string, t: string, k: nat)
    requires At(t, END_OF_HEAD, k)
    ensures At(l + (CRLF + t), END_OF_HEAD, |l| + 2 + k)
  {
    assert l + (CRLF + t) == (l + CRLF) + t;
    AtSuffix(l + CRLF, t, END_OF_HEAD, |l| + 2 + k);
  }

  lemma NotBefore(l: string, t: string, k: nat, j: int)
    requires !Contains(l, CRLF) && !At(t, CRLF, 0) && FirstAt(t, END_OF_HEAD, k)
    requires 0 <= j < |l| + 2 + k
    ensures !At(l + (CRLF + t), END_OF_HEAD, j)
  {
    if j < |l| + 2 {
      BreaksBetween(l, t, j);
    } else {
      assert l + (CRLF + t) == (l + CRLF) + t;
      AtSuffix(l + CRLF, t, END_OF_HEAD, j);
    }
  }

  lemma NoneBefore(l: string, t: string, k: nat, s: string)
    requires !Contains(l, CRLF) && !At(t, CRLF, 0) && FirstAt(t, END_OF_HEAD, k)
    requires s == l + (CRLF + t)
    ensures forall j :: 0 <= j < |l| + 2 + k ==> !At(s, END_OF_HEAD, j)
  {
    forall j | 0 <= j < |l| + 2 + k ensures !At(s, END_OF_HEAD, j) {
      NotBefore(l, t, k, j);
    }
  }

  lemma LaterEnd(l: string, t: string, k: nat)
    requires !Contains(l, CRLF) && !At(t, CRLF, 0) && FirstAt(t, END_OF_HEAD, k)
    ensures FirstAt(l + (CRLF + t), END_OF_HEAD, |l| + 2 + k)
  {
    var s := l + (CRLF + t);
    ShiftedEnd(l, t, k);
    NoneBefore(l, t, k, s);
  }

  /** The first empty line of a printed request is the one behind its last field. */
  lemma {:induction false} HeadEnds(lines: seq<string>, rest: string)
    requires lines != [] && LinesOk(lines)
    ensures |Unlines(lines)| >= 2
    ensures FirstAt(Unlines(lines) + (CRLF + rest), END_OF_HEAD, |Unlines(lines)| - 2)
    decreases |lines|
  {
    var l, more := lines[0], lines[1..];
    var t := Unlines(more) + (CRLF + rest);
    var s := Unlines(lines) + (CRLF + rest);
    assert s == l + (CRLF + t);
    if more == [] {
      LastEnd(l, rest);
      assert t == CRLF + rest && Unlines(lines) == l + (CRLF + "");
    } else {
      HeadEnds(more, rest);
      NoBreakAhead(more, CRLF + rest);
      LaterEnd(l, t, |Unlines(more)| - 2);
    }
  }

  lemma PrefixIsAt(s: string, pat: string)
    ensures pat <= s <==> At(s, pat, 0)
  {
  }

  lemma SkipOneBreak(t: string)
    requires !At(t, CRLF, 0)
    ensures SkipBreaks(CRLF + t) == t
  {
    assert (CRLF + t)[2..] == t;
    PrefixIsAt(t, CRLF);
  }

  /** One step of splitting. */
  lemma SplitsOnce(l: string, t: string)
    requires !Contains(l, CRLF) && !At(t, CRLF, 0)
    ensures SplitLines(l + (CRLF + t)) == [l] + SplitLines(t)
  {
    var s := l + (CRLF + t);
    FirstBreak(l, t);
    assert s[..|l|] == l && s[|l|..] == CRLF + t;
    SkipOneBreak(t);
    SkipShrinks(s[|l| + 2..]);
  }

  /** Splitting at line breaks gives back the lines. */
  lemma {:induction false} SplitsBack(lines: seq<string>, last: string)
    requires LinesOk(lines) && LineOk(last)
    ensures SplitLines(Unlines(lines) + last) == lines + [last]
    decreases |lines|
  {
    if lines == [] {
      assert Unlines(lines) + last == last;
    } else {
      var l, more := lines[0], lines[1..];
      var t := Unlines(more) + last;
      assert Unlines(lines) + last == l + (CRLF + t);
      if more == [] {
        assert t == last;
      } else {
        NoBreakAhead(more, last);
      }
      SplitsOnce(l, t);
      SplitsBack(more, last);
      assert lines + [last] == [l] + (more + [last]);
    }
  }
}
