/** The character-level lexer of the configuration language (NginxConfigParser::ParseToken).

    `Lex` says what one call must deliver by maximal munch over the unread text; `ParseToken`
    is the five-state machine with its one-character pushback, proved against it. */
module ConfigLexer {
  import opened CharStreams

  datatype TokenType = Start | Normal | StartBlock | EndBlock | Comment | StatementEnd | Eof | Error

  datatype LexerState = InitialWhitespace | SingleQuote | DoubleQuote | InComment | InWord

  /** One token together with the text left unread behind it. */
  datatype Lexeme = Lexeme(kind: TokenType, value: string, rest: string)

  /** The sets of characters at which the lexer stops running. */
  datatype Stopper = AtNonSpace | AtWordEnd | AtLineEnd | AtQuote(quote: char)

  predicate IsSpace(c: char) {
    c == ' ' || c == '\t' || c == '\n' || c == '\r'
  }

  predicate Stops(p: Stopper, c: char) {
    match p
    case AtNonSpace => !IsSpace(c)
    // A carriage return does not end a word, although it counts as space between tokens.
    case AtWordEnd => c == ' ' || c == '\t' || c == '\n' || c == ';' || c == '{' || c == '}'
    case AtLineEnd => c == '\n' || c == '\r'
    case AtQuote(quote) => c == quote
  }

  /** The position of the first stopping character, or |s|. */
  function Span(s: string, p: Stopper): (k: nat)
    ensures k <= |s|
    ensures forall i :: 0 <= i < k ==> !Stops(p, s[i])
    ensures k < |s| ==> Stops(p, s[k])
  {
    if s == [] || Stops(p, s[0]) then 0 else 1 + Span(s[1..], p)
  }

  lemma {:induction false} SpanIs(s: string, p: Stopper, k: nat)
    requires k <= |s|
    requires forall i :: 0 <= i < k ==> !Stops(p, s[i])
    requires k < |s| ==> Stops(p, s[k])
    ensures Span(s, p) == k
  {
    if k > 0 {
      SpanIs(s[1..], p, k - 1);
    }
  }

  function InQuote(q: char, value: string, s: string): Lexeme {
    var k := Span(s, AtQuote(q));
    if k == |s| then Lexeme(Error, value + s, "") else Lexeme(Normal, value + s[..k + 1], s[k + 1..])
  }

  function InCommentLine(value: string, s: string): Lexeme {
    var k := Span(s, AtLineEnd);
    if k == |s| then Lexeme(Eof, value + s, "") else Lexeme(Comment, value + s[..k], s[k + 1..])
  }

  /** A word that runs into the end of the input is reported as end of file. */
  function InPlainWord(value: string, s: string): Lexeme {
    var k := Span(s, AtWordEnd);
    if k == |s| then Lexeme(Eof, value + s, "") else Lexeme(Normal, value + s[..k], s[k..])
  }

  /** The token that begins at a non-space character. */
  function LexAt(s: string): Lexeme {
    if s == "" then Lexeme(Eof, "", "")
    else if s[0] == '{' then Lexeme(StartBlock, s[..1], s[1..])
    else if s[0] == '}' then Lexeme(EndBlock, s[..1], s[1..])
    else if s[0] == ';' then Lexeme(StatementEnd, s[..1], s[1..])
    else if s[0] == '#' then InCommentLine(s[..1], s[1..])
    else if s[0] == '"' || s[0] == '\'' then InQuote(s[0], s[..1], s[1..])
    else InPlainWord(s[..1], s[1..])
  }

  function Lex(s: string): Lexeme {
    LexAt(s[Span(s, AtNonSpace)..])
  }

  predicate IsLast(kind: TokenType) {
    kind == Eof || kind == Error
  }

  lemma LexAtConsumes(t: string)
    ensures !IsLast(LexAt(t).kind) ==> |LexAt(t).rest| < |t| && LexAt(t).rest == t[|t| - |LexAt(t).rest|..]
  {
  }

  /** Every token that is not the last one consumes input, pushback included. */
  lemma LexConsumes(s: string)
    ensures !IsLast(Lex(s).kind) ==> |Lex(s).rest| < |s| && Lex(s).rest == s[|s| - |Lex(s).rest|..]
  {
    LexAtConsumes(s[Span(s, AtNonSpace)..]);
  }

  lemma LexSkipsSpace(s: string)
    requires s != "" && IsSpace(s[0])
    ensures Lex(s) == Lex(s[1..])
  {
    assert s[Span(s, AtNonSpace)..] == s[1..][Span(s[1..], AtNonSpace)..];
  }

  // ---------------------------------------------------------------- lexable tokens

  predicate PlainWord(t: string) {
    t != "" && !IsSpace(t[0]) && t[0] != '#' && t[0] != '"' && t[0] != '\''
    && forall i :: 0 <= i < |t| ==> !Stops(AtWordEnd, t[i])
  }

  predicate QuotedWord(t: string) {
    |t| >= 2 && (t[0] == '"' || t[0] == '\'') && t[|t| - 1] == t[0]
    && forall i :: 1 <= i < |t| - 1 ==> t[i] != t[0]
  }

  /** The tokens that survive being printed: plain words and one-piece quoted strings. */
  predicate Lexable(t: string) {
    PlainWord(t) || QuotedWord(t)
  }

  lemma ClosedQuoteIsQuoted(q: string, s: string)
    requires |q| == 1 && (q[0] == '"' || q[0] == '\'')
    ensures var l := InQuote(q[0], q, s); l.kind == Normal ==> QuotedWord(l.value)
  {
    var k := Span(s, AtQuote(q[0]));
    if k < |s| {
      var v := q + s[..k + 1];
      assert forall i :: 1 <= i < |v| ==> v[i] == s[i - 1];
    }
  }

  lemma EndedWordIsPlain(w: string, s: string)
    requires PlainWord(w)
    ensures var l := InPlainWord(w, s); l.kind == Normal ==> PlainWord(l.value)
  {
    var v := w + s[..Span(s, AtWordEnd)];
    assert v[0] == w[0];
    assert forall i :: |w| <= i < |v| ==> v[i] == s[i - |w|];
  }

  lemma LexAtWordIsLexable(s: string)
    requires LexAt(s).kind == Normal && !IsSpace(s[0])
    ensures Lexable(LexAt(s).value)
  {
    if s[0] == '"' || s[0] == '\'' {
      ClosedQuoteIsQuoted(s[..1], s[1..]);
    } else {
      EndedWordIsPlain(s[..1], s[1..]);
    }
  }

  /** Every word the lexer can return would be read as one word again. */
  lemma LexedWordIsLexable(s: string)
    requires Lex(s).kind == Normal
    ensures Lexable(Lex(s).value)
  {
    LexAtWordIsLexable(s[Span(s, AtNonSpace)..]);
  }

  lemma LexAtNonSpace(s: string)
    requires s != "" && !IsSpace(s[0])
    ensures Lex(s) == LexAt(s)
  {
    assert s[0..] == s;
  }

  lemma ReadsQuotedBack(t: string, rest: string)
    requires QuotedWord(t)
    ensures InQuote(t[0], t[..1], t[1..] + rest) == Lexeme(Normal, t, rest)
  {
    var s := t[1..] + rest;
    SpanIs(s, AtQuote(t[0]), |t| - 2);
    assert t[..1] + s[..|t| - 1] == t && s[|t| - 1..] == rest;
  }

  lemma ReadsPlainBack(t: string, rest: string)
    requires PlainWord(t)
    requires rest != "" && Stops(AtWordEnd, rest[0])
    ensures InPlainWord(t[..1], t[1..] + rest) == Lexeme(Normal, t, rest)
  {
    var s := t[1..] + rest;
    SpanIs(s, AtWordEnd, |t| - 1);
    assert t[..1] + s[..|t| - 1] == t && s[|t| - 1..] == rest;
  }

  lemma LexReadsWordBack(t: string, rest: string)
    requires Lexable(t)
    requires rest != "" && Stops(AtWordEnd, rest[0])
    ensures Lex(t + rest) == Lexeme(Normal, t, rest)
  {
    var s := t + rest;
    LexAtNonSpace(s);
    assert s[..1] == t[..1] && s[1..] == t[1..] + rest;
    if QuotedWord(t) {
      ReadsQuotedBack(t, rest);
    } else {
      ReadsPlainBack(t, rest);
      assert !Stops(AtWordEnd, t[0]);
    }
  }

  /** A carriage return is skipped in front of a token, but inside a word it is one more character. */
  lemma CarriageReturns(w: string, rest: string)
    requires PlainWord(w)
    ensures Lex(['\r'] + rest) == Lex(rest)
    ensures Lex((w + ['\r']) + ([';'] + rest)) == Lexeme(Normal, w + ['\r'], [';'] + rest)
  {
    LexSkipsSpace(['\r'] + rest);
    assert (['\r'] + rest)[1..] == rest;
    LexReadsWordBack(w + ['\r'], [';'] + rest);
  }

  // ---------------------------------------------------------------- the state machine

  /** One character of the machine: either it goes on, or it stops with a token and
      possibly pushes the character back. */
  datatype Move = More(state: LexerState, value: string) | Stop(kind: TokenType, value: string, pushback: bool)

  function Advance(state: LexerState, value: string, c: char): (move: Move)
    ensures move.Stop? ==> !IsLast(move.kind)
  {
    match state
    case InitialWhitespace =>
      if c == '{' then Stop(StartBlock, [c], false)
      else if c == '}' then Stop(EndBlock, [c], false)
      else if c == '#' then More(InComment, [c])
      else if c == '"' then More(DoubleQuote, [c])
      else if c == '\'' then More(SingleQuote, [c])
      else if c == ';' then Stop(StatementEnd, [c], false)
      else if IsSpace(c) then More(InitialWhitespace, value)
      else More(InWord, value + [c])
    case SingleQuote => if c == '\'' then Stop(Normal, value + [c], false) else More(state, value + [c])
    case DoubleQuote => if c == '"' then Stop(Normal, value + [c], false) else More(state, value + [c])
    case InComment => if Stops(AtLineEnd, c) then Stop(Comment, value, false) else More(state, value + [c])
    case InWord => if Stops(AtWordEnd, c) then Stop(Normal, value, true) else More(state, value + [c])
  }

  /** The whole run of the machine over the unread text. */
  function Machine(state: LexerState, value: string, s: string): Lexeme
    decreases |s|
  {
    if s == "" then
      Lexeme(if state == SingleQuote || state == DoubleQuote then Error else Eof, value, "")
    else
      match Advance(state, value, s[0])
      case More(state', value') => Machine(state', value', s[1..])
      case Stop(kind, value', pushback) => Lexeme(kind, value', if pushback then s else s[1..])
  }

  lemma Shift(value: string, s: string, k: nat)
    requires k < |s|
    ensures value + s == value + [s[0]] + s[1..]
    ensures value + s[..k + 1] == value + [s[0]] + s[1..][..k]
    ensures s[k + 1..] == s[1..][k..]
  {
  }

  /** Moving one running character from the text to the value changes neither of the two
      ways of cutting the text at the first stopping character. */
  lemma MunchStep(value: string, s: string, p: Stopper)
    ensures s == "" ==> value + s == value
    ensures s != "" && Stops(p, s[0]) ==>
              Span(s, p) == 0 && value + s[..0] == value && value + s[..1] == value + [s[0]] && s[0..] == s
    ensures s != "" && !Stops(p, s[0]) ==>
      var k := Span(s[1..], p);
      && Span(s, p) == k + 1
      && value + s == value + [s[0]] + s[1..]
      && value + s[..k + 1] == value + [s[0]] + s[1..][..k]
      && s[k + 1..] == s[1..][k..]
  {
    if s != "" && !Stops(p, s[0]) {
      Shift(value, s, Span(s[1..], p));
    }
  }

  lemma {:induction false} SingleQuoteMunches(value: string, s: string)
    ensures Machine(SingleQuote, value, s) == InQuote('\'', value, s)
    decreases |s|
  {
    MunchStep(value, s, AtQuote('\''));
    if s != "" && s[0] != '\'' { SingleQuoteMunches(value + [s[0]], s[1..]); }
  }

  lemma {:induction false} DoubleQuoteMunches(value: string, s: string)
    ensures Machine(DoubleQuote, value, s) == InQuote('"', value, s)
    decreases |s|
  {
    MunchStep(value, s, AtQuote('"'));
    if s != "" && s[0] != '"' { DoubleQuoteMunches(value + [s[0]], s[1..]); }
  }

  lemma {:induction false} CommentMunches(value: string, s: string)
    ensures Machine(InComment, value, s) == InCommentLine(value, s)
    decreases |s|
  {
    MunchStep(value, s, AtLineEnd);
    if s != "" && !Stops(AtLineEnd, s[0]) { CommentMunches(value + [s[0]], s[1..]); }
  }

  lemma {:induction false} WordMunches(value: string, s: string)
    ensures Machine(InWord, value, s) == InPlainWord(value, s)
    decreases |s|
  {
    MunchStep(value, s, AtWordEnd);
    if s != "" && !Stops(AtWordEnd, s[0]) { WordMunches(value + [s[0]], s[1..]); }
  }

  lemma FirstMoveMunches(s: string)
    requires s != "" && !IsSpace(s[0])
    ensures Machine(InitialWhitespace, "", s) == LexAt(s)
  {
    assert s[..1] == [s[0]] && "" + [s[0]] == [s[0]];
    match s[0]
    case '{' =>
    case '}' =>
    case ';' =>
    case '#' => CommentMunches([s[0]], s[1..]);
    case '"' => DoubleQuoteMunches([s[0]], s[1..]);
    case '\'' => SingleQuoteMunches([s[0]], s[1..]);
    case _ => WordMunches([s[0]], s[1..]);
  }

  lemma FirstMoveSkips(s: string)
    requires s != "" && IsSpace(s[0])
    ensures Machine(InitialWhitespace, "", s) == Machine(InitialWhitespace, "", s[1..])
  {
    assert Advance(InitialWhitespace, "", s[0]) == More(InitialWhitespace, "");
  }

  /** The state machine computes maximal munch. */
  lemma {:induction false} MachineMunches(s: string)
    ensures Machine(InitialWhitespace, "", s) == Lex(s)
  {
    if s != "" && IsSpace(s[0]) {
      LexSkipsSpace(s);
      FirstMoveSkips(s);
      MachineMunches(s[1..]);
    } else if s != "" {
      LexAtNonSpace(s);
      FirstMoveMunches(s);
    }
  }

  method RunMachine(input: CharStream) returns (kind: TokenType, value: string)
    requires input.Valid()
    modifies input
    ensures input.Valid()
    ensures Machine(InitialWhitespace, "", old(input.Unread())) == Lexeme(kind, value, input.Unread())
    ensures input.good == !IsLast(kind)
  {
    var state := InitialWhitespace;
    value := "";
    while input.good
      invariant input.Valid()
      invariant Machine(state, value, input.Unread()) == Machine(InitialWhitespace, "", old(input.Unread()))
      decreases |input.text| - input.pos, input.good
    {
      var c := input.Get();
      if !input.good {
        break;
      }
      match Advance(state, value, c) {
        case More(next, longer) =>
          state, value := next, longer;
        case Stop(found, token, pushback) =>
          if pushback {
            input.Unget();
          }
          return found, token;
      }
    }
    if state == SingleQuote || state == DoubleQuote {
      return Error, value;
    }
    return Eof, value;
  }

  method ParseToken(input: CharStream) returns (kind: TokenType, value: string)
    requires input.Valid()
    modifies input
    ensures input.Valid()
    ensures Lex(old(input.Unread())) == Lexeme(kind, value, input.Unread())
    ensures input.good == !IsLast(kind)
  {
    ghost var start := input.Unread();
    kind, value := RunMachine(input);
    MachineMunches(start);
  }
}
