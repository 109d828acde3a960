/** The text of a request, written out: what the printer writes for any parts, and that an accepted text
    is determined by the parts that the parser finds in it. */
module RequestText {
  import opened Wrappers
  import opened Requests
  import opened RequestDrift

  /** The header lines, each behind a line break. */
  function HeaderText(fs: seq<Field>): string {
    if fs == [] then "" else "\r\n" + fs[0].key + ": " + fs[0].value + HeaderText(fs[1..])
  }

  /** Everything in front of the line break that ends the last line. */
  function HeadText(m: Message): string {
    m.verb + " " + m.path + " " + m.version + HeaderText(m.fields)
  }

  /** Lines with a break between any two of them. */
  function Between(lines: seq<string>): string {
    if lines == [] then ""
    else if |lines| == 1 then lines[0]
    else lines[0] + (CRLF + Between(lines[1..]))
  }

  // ---------------------------------------------------------------- what is printed

  lemma FieldText(f: Field, more: string)
    ensures "\r\n" + f.key + ": " + f.value + more == CRLF + (FieldLine(f) + more)
  {
    assert "\r\n" == CRLF && ": " == COLON;
  }

  lemma OneBetween(l: string, lines: seq<string>)
    ensures Between([l] + lines) == if lines == [] then l else l + (CRLF + Between(lines))
  {
    assert ([l] + lines)[1..] == lines;
  }

  lemma {:induction false} HeaderIsBetween(l: string, fs: seq<Field>)
    ensures Between([l] + FieldLines(fs)) == l + HeaderText(fs)
    decreases |fs|
  {
    OneBetween(l, FieldLines(fs));
    if fs == [] {
      assert FieldLines(fs) == [] && l + "" == l;
    } else {
      assert FieldLines(fs) == [FieldLine(fs[0])] + FieldLines(fs[1..]);
      HeaderIsBetween(FieldLine(fs[0]), fs[1..]);
      FieldText(fs[0], HeaderText(fs[1..]));
    }
  }

  lemma FirstText(v: string, p: string, x: string)
    ensures v + " " + p + " " + x == v + ([' '] + (p + ([' '] + x)))
  {
  }

  lemma HeadIsBetween(m: Message)
    ensures Between(Lines(m)) == HeadText(m)
  {
    LinesAre(m);
    HeaderIsBetween(FirstLine(m), m.fields);
    assert " " == [' '];
    FirstText(m.verb, m.path, m.version);
  }

  lemma Regroup(a: string, b: string, c: string, d: string)
    ensures a + (b + (c + d)) == (a + (b + c)) + d
  {
  }

  lemma {:induction false} UnlinesIsBetween(lines: seq<string>)
    requires lines != []
    ensures Unlines(lines) == Between(lines) + CRLF
    decreases |lines|
  {
    if |lines| == 1 {
      assert lines[1..] == [];
    } else {
      UnlinesIsBetween(lines[1..]);
      Regroup(lines[0], CRLF, Between(lines[1..]), CRLF);
    }
  }

  lemma PrintedParts(a: string, b: string, c: string)
    ensures (a + b) + (b + (c + b)) == a + (b + b) + c + b
  {
  }

  /** What is printed for any request. */
  lemma PrintedText(m: Message)
    ensures Print(m) == HeadText(m) + "\r\n\r\n" + m.body + "\r\n"
  {
    LinesAre(m);
    UnlinesIsBetween(Lines(m));
    HeadIsBetween(m);
    assert "\r\n\r\n" == CRLF + CRLF && "\r\n" == CRLF;
    PrintedParts(HeadText(m), CRLF, m.body);
  }

  // ---------------------------------------------------------------- what is accepted

  lemma NoEndBehind(l: string, t: string)
    requires !Contains(l + (CRLF + t), END_OF_HEAD)
    ensures !At(t, CRLF, 0) && !Contains(t, END_OF_HEAD)
  {
    var s := l + (CRLF + t);
    assert s == (l + CRLF) + t;
    if At(t, CRLF, 0) {
      assert t == CRLF + t[2..];
      EndAt(l, t[2..]);
    }
    forall k | 0 <= k <= |t| ensures !At(t, END_OF_HEAD, k) {
      AtSuffix(l + CRLF, t, END_OF_HEAD, |l| + 2 + k);
    }
  }

  lemma CutInThree(s: string, k: nat)
    requires k + 2 <= |s|
    ensures s == s[..k] + (s[k..k + 2] + s[k + 2..])
  {
  }

  lemma CutAtBreak(s: string, k: nat)
    requires Find(s, CRLF) == Some(k)
    ensures k + 2 <= |s| && s == s[..k] + (CRLF + s[k + 2..]) && !Contains(s[..k], CRLF)
  {
    CutInThree(s, k);
    NotInside(s, CRLF, k);
  }

  lemma BehindBreak(l: string, t: string)
    requires var s := l + (CRLF + t); !Contains(s, END_OF_HEAD) && !At(s, CRLF, |s| - 2)
    ensures t != "" && !Contains(t, END_OF_HEAD) && !At(t, CRLF, 0) && !At(t, CRLF, |t| - 2)
  {
    var s := l + (CRLF + t);
    NoEndBehind(l, t);
    if t == "" {
      PatAt(l, CRLF, t);
    }
    if |t| >= 2 {
      assert s == (l + CRLF) + t;
      AtSuffix(l + CRLF, t, CRLF, |s| - 2);
    }
  }

  /** The lines of a text, joined again, are the text, if it has no empty line and no line break at either
      end. */
  lemma {:induction false} SplitThenJoin(s: string)
    requires s != "" && !Contains(s, END_OF_HEAD) && !At(s, CRLF, 0) && !At(s, CRLF, |s| - 2)
    ensures SplitLines(s) != [] && Between(SplitLines(s)) == s
    decreases |s|
  {
    var at := Find(s, CRLF);
    if at.Some? {
      var l, t := s[..at.value], s[at.value + 2..];
      CutAtBreak(s, at.value);
      BehindBreak(l, t);
      SplitsOnce(l, t);
      SplitThenJoin(t);
      OneBetween(l, SplitLines(t));
    }
  }

  lemma BreakEnds(s: string, j: int)
    ensures At(s, CRLF, j) ==> s[j + 1] == '\n'
  {
    if At(s, CRLF, j) {
      assert s[j + 1] == s[j..j + 2][1];
    }
  }

  lemma HeadIsClean(req: string, k: nat)
    requires FirstAt(req, END_OF_HEAD, k) && !At(req, CRLF, 0)
    ensures var head := req[..k + 1];
      head != "" && !Contains(head, END_OF_HEAD) && !At(head, CRLF, 0) && !At(head, CRLF, |head| - 2)
    ensures req == req[..k + 1] + ("\n\r\n" + req[k + 4..])
  {
    var head := req[..k + 1];
    forall j | 0 <= j <= |head| ensures !At(head, END_OF_HEAD, j) {
      if j < k {
        assert !At(req, END_OF_HEAD, j);
        assert j + 4 <= |head| ==> head[j..j + 4] == req[j..j + 4];
      }
    }
    assert 2 <= |head| ==> head[..2] == req[..2];
    var end := req[k..k + 4];
    assert end == END_OF_HEAD && req[k] == end[0] && req[k + 1] == end[1];
    assert req[k + 2] == end[2] && req[k + 3] == end[3];
    BreakEnds(head, |head| - 2);
  }

  /** An accepted text is the text of its parts, to the letter: the verb, path and version between spaces,
      each field behind a line break, an empty line, and the body. */
  lemma AcceptedText(req: string)
    requires Parse(req).Some?
    ensures var m := Parse(req).value;
            (m.verb == "GET" || m.verb == "POST") && req == HeadText(m) + ("\n\r\n" + m.body)
  {
    var m, k := Parse(req).value, Find(req, END_OF_HEAD).value;
    var head := req[..k + 1];
    ParsedHead(SplitLines(head), req[k + 4..]);
    if CRLF <= req {
      BreakFirstIsRejected(req);
    }
    PrefixIsAt(req, CRLF);
    HeadIsClean(req, k);
    SplitThenJoin(head);
    HeadIsBetween(m);
  }

  /** The requests that can be returned: a known verb, no space in path or version, no colon and space in
      a key, no line break within a line, and a carriage return at the very end of the head. */
  predicate Proper(m: Message) {
    && (m.verb == "GET" || m.verb == "POST") && ' ' !in m.path && ' ' !in m.version
    && !Contains(m.verb + " " + m.path + " " + m.version, "\r\n")
    && (forall i :: 0 <= i < |m.fields| ==>
          !Contains(m.fields[i].key, ": ") && !Contains(m.fields[i].key + ": " + m.fields[i].value, "\r\n"))
    && HeadText(m)[|HeadText(m)| - 1] == '\r'
  }

  lemma {:induction false} BetweenEnds(lines: seq<string>)
    requires lines != [] && lines[|lines| - 1] != ""
    ensures var last := lines[|lines| - 1];
            Between(lines) != "" && Between(lines)[|Between(lines)| - 1] == last[|last| - 1]
    decreases |lines|
  {
    if |lines| > 1 {
      BetweenEnds(lines[1..]);
    }
  }

  lemma LineTexts(m: Message)
    ensures " " == [' '] && ": " == COLON && "\r\n" == CRLF
    ensures FirstLine(m) == m.verb + " " + m.path + " " + m.version
    ensures forall i :: 0 <= i < |m.fields| ==> FieldLine(m.fields[i]) == m.fields[i].key + ": " + m.fields[i].value
  {
    FirstText(m.verb, m.path, m.version);
    forall i | 0 <= i < |m.fields| ensures FieldLine(m.fields[i]) == m.fields[i].key + ": " + m.fields[i].value {
      FieldText(m.fields[i], "");
    }
  }

  lemma HeadEnd(m: Message)
    requires Verb(m.verb)
    ensures EndsInReturn(LastLine(m)) <==> HeadText(m)[|HeadText(m)| - 1] == '\r'
  {
    NoEmptyLine(m);
    HeadIsBetween(m);
    BetweenEnds(Lines(m));
  }

  lemma ProperLines(m: Message)
    requires Verb(m.verb)
    ensures LinesOk(Lines(m)) <==>
            !Contains(FirstLine(m), CRLF) && forall i :: 0 <= i < |m.fields| ==> !Contains(FieldLine(m.fields[i]), CRLF)
  {
    NoEmptyLine(m);
    LinesAre(m);
    var ls := Lines(m);
    assert ls[0] == FirstLine(m) && forall i :: 0 <= i < |m.fields| ==> ls[i + 1] == FieldLine(m.fields[i]);
    if !Contains(FirstLine(m), CRLF) && forall i :: 0 <= i < |m.fields| ==> !Contains(FieldLine(m.fields[i]), CRLF) {
      forall i | 0 <= i < |ls| ensures LineOk(ls[i]) {
        assert i > 0 ==> ls[i] == FieldLine(m.fields[i - 1]);
      }
    }
    if LinesOk(ls) {
      assert LineOk(ls[0]);
      forall i | 0 <= i < |m.fields| ensures !Contains(FieldLine(m.fields[i]), CRLF) {
        assert LineOk(ls[i + 1]);
      }
    }
  }

  lemma ProperIs(m: Message)
    ensures Proper(m) <==> Good(m) && EndsInReturn(LastLine(m))
  {
    LineTexts(m);
    if m.verb == "GET" || m.verb == "POST" {
      HeadEnd(m);
      ProperLines(m);
    }
  }

  /** Exactly which texts the parser accepts, and as what: a text gives a request if and only if the
      request is a proper one and the text is its text. So every proper request is parsed from exactly one
      text, and two different texts are never parsed alike. */
  lemma ParsesExactly(req: string, m: Message)
    ensures Parse(req) == Some(m) <==> Proper(m) && req == HeadText(m) + ("\n\r\n" + m.body)
  {
    ProperIs(m);
    if Parse(req) == Some(m) {
      ParsedIsGood(req);
      AcceptedText(req);
    } else if Proper(m) {
      ReturnableRequests(m);
      var other :| Parse(other) == Some(m);
      AcceptedText(other);
    }
  }
}
