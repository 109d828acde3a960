/** The Request object: its parser and printer. */
module RequestParser {
  import opened Wrappers
  import opened Requests
  import opened RequestDrift

  lemma {:induction false} FailsAtPrefix(lines: seq<string>, k: nat)
    requires k <= |lines| && ParseFields(lines[..k]).None?
    ensures ParseFields(lines).None?
    decreases |lines|
  {
    if k == |lines| {
      assert lines[..k] == lines;
    } else {
      var init := lines[..|lines| - 1];
      assert init[..k] == lines[..k];
      FailsAtPrefix(init, k);
    }
  }

  lemma FieldsUpTo(lines: seq<string>, k: nat)
    requires k < |lines|
    ensures ParseFields(lines[..k + 1]) ==
            match (ParseFields(lines[..k]), ParseField(lines[k]))
            case (Some(fs), Some(f)) => Some(fs + [f])
            case _ => None
  {
    assert lines[..k + 1][..k] == lines[..k];
  }

  lemma {:induction false} UnlinesUpTo(lines: seq<string>, k: nat)
    requires k < |lines|
    ensures Unlines(lines[..k + 1]) == (Unlines(lines[..k]) + lines[k]) + CRLF
  {
    UnlinesLast(lines[..k], lines[k]);
    assert lines[..k + 1] == lines[..k] + [lines[k]];
  }

  /** What follows an accepted request becomes part of its body. */
  lemma AppendedText(req: string, data: string)
    requires Parse(req).Some?
    ensures var m := Parse(req).value; Parse(req + data) == Some(m.(body := m.body + data))
  {
    var k := Find(req, END_OF_HEAD).value;
    forall j | 0 <= j <= k ensures At(req + data, END_OF_HEAD, j) <==> At(req, END_OF_HEAD, j) {
      assert (req + data)[j..j + 4] == req[j..j + 4];
    }
    FindIs(req + data, END_OF_HEAD, k);
    assert (req + data)[..k + 1] == req[..k + 1];
    assert (req + data)[k + 4..] == req[k + 4..] + data;
  }

  lemma SomeLine(s: string)
    requires s != ""
    ensures SplitLines(s) != []
  {
  }

  lemma SplitPieces(a: string, b: string, c: string, d: string, e: string)
    ensures a + b + c + b + d + e == (a + (b + (c + (b + d)))) + (e + "")
  {
  }

  lemma FirstPrinted(m: Message)
    ensures m.verb + " " + m.path + " " + m.version + CRLF == Unlines(Lines(m)[..1])
  {
    assert Lines(m)[..1] == [FirstLine(m)] && Lines(m)[..1][1..] == [];
    assert Unlines([]) == "";
    SplitPieces(m.verb, [' '], m.path, m.version, CRLF);
  }

  lemma Grouped(a: string, b: string, c: string)
    ensures a + b + c + b == a + (b + (c + b))
  {
  }

  class Request {
    var rawRequest: string
    var verb: string
    var path: string
    var version: string
    var fields: seq<Field>
    var body: string

    function Contents(): Message
      reads this
    {
      Message(verb, path, version, fields, body)
    }

    /** The parts are what the kept text says. */
    ghost predicate Faithful()
      reads this
    {
      Requests.Parse(rawRequest) == Some(Contents())
    }

    constructor (raw: string)
      ensures rawRequest == raw && Contents() == Message("", "", "", [], "")
    {
      rawRequest := raw;
      verb, path, version, fields, body := "", "", "", [], "";
    }

    static method Parse(raw: string) returns (r: Request?)
      ensures r == null <==> Requests.Parse(raw).None?
      ensures r != null ==> fresh(r) && r.rawRequest == raw && r.Faithful()
    {
      r := new Request(raw);
      var ok := r.ParseRawRequest(raw);
      if !ok {
        r := null;
      }
    }

    method ParseFirstLine(line: string) returns (ok: bool)
      modifies this
      ensures ok == (|Words(line)| == 3 && Verb(Words(line)[0]))
      ensures ok ==> [verb, path, version] == Words(line)
      ensures rawRequest == old(rawRequest) && fields == old(fields) && body == old(body)
    {
      var tokens := Words(line);
      if |tokens| != 3 {
        return false;
      }
      if tokens[0] != "GET" && tokens[0] != "POST" {
        return false;
      }
      verb, path, version := tokens[0], tokens[1], tokens[2];
      return true;
    }

    method ParseRawRequest(req: string) returns (ok: bool)
      requires fields == [] && body == ""
      modifies this
      ensures ok == Requests.Parse(req).Some?
      ensures ok ==> Requests.Parse(req) == Some(Contents())
      ensures rawRequest == old(rawRequest)
    {
      var end := Find(req, END_OF_HEAD);
      if end.None? {
        return false;
      }
      var begin := end.value + 4;
      if begin < |req| {
        body := req[begin..];
      }
      assert body == req[begin..];
      var lines := SplitLines(req[..end.value + 1]);
      SomeLine(req[..end.value + 1]);
      ParsedAt(req, end.value);
      ok := ParseFirstLine(lines[0]);
      if ok {
        ok := ParseFieldLines(lines[1..]);
      }
    }

    method ParseFieldLines(lines: seq<string>) returns (ok: bool)
      requires fields == []
      modifies this`fields
      ensures ok == ParseFields(lines).Some?
      ensures ok ==> ParseFields(lines) == Some(fields)
    {
      for i := 0 to |lines|
        invariant ParseFields(lines[..i]) == Some(fields)
      {
        FieldsUpTo(lines, i);
        var index := Find(lines[i], COLON);
        if index.None? {
          FailsAtPrefix(lines, i + 1);
          return false;
        }
        var key := lines[i][..index.value];
        var value := lines[i][index.value + 2..];
        fields := fields + [Field(key, value)];
      }
      assert lines[..|lines|] == lines;
      return true;
    }

    method ToString() returns (r: string)
      ensures r == Print(Contents())
    {
      ghost var m := Contents();
      ghost var lines := Lines(m);
      LinesAre(m);
      r := verb + " " + path + " " + version + CRLF;
      FirstPrinted(m);
      for i := 0 to |fields|
        invariant r == Unlines(lines[..i + 1])
      {
        ghost var before := r;
        var line := fields[i].key + ": " + fields[i].value;
        assert line == FieldLine(fields[i]) == lines[i + 1];
        r := r + line + CRLF;
        UnlinesUpTo(lines, i + 1);
      }
      assert lines[..|fields| + 1] == lines;
      r := r + CRLF + body + CRLF;
      Grouped(Unlines(lines), CRLF, body);
    }

    method AppendBody(data: string) returns (size: nat)
      modifies this
      ensures Contents() == old(Contents()).(body := old(body) + data)
      ensures rawRequest == old(rawRequest) + data && size == |body|
      ensures old(Faithful()) ==> Faithful()
    {
      if Faithful() {
        AppendedText(rawRequest, data);
      }
      body := body + data;
      rawRequest := rawRequest + data;
      size := |body|;
    }
  }
}
