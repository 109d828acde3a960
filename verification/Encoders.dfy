/** The character encoders encodeString and emailEncode, and the decoders that invert them. */
module Encoders {
  import opened Numerals
  import opened Placeholders

  /** The encoding flags of a text token. */
  datatype Flags = Flags(amps: bool, doubleAmps: bool, angles: bool, quotes: bool)

  /** The flags of code spans and code blocks. */
  const CODE := Flags(false, true, true, true)

  /** The flags of raw text and headers. */
  const TEXT := Flags(true, false, true, true)

  predicate IsHex(c: char) {
    '0' <= c <= '9' || 'a' <= c <= 'f' || 'A' <= c <= 'F'
  }

  predicate DecimalAt(s: string, n: nat) {
    2 + n < |s| && s[2 + n] == ';' && forall i :: 2 <= i < 2 + n ==> '0' <= s[i] <= '9'
  }

  predicate HexAt(s: string, n: nat) {
    3 + n < |s| && s[3 + n] == ';' && (s[2] == 'x' || s[2] == 'X') && forall i :: 3 <= i < 3 + n ==> IsHex(s[i])
  }

  /** A numeric entity of up to three decimal or two hexadecimal digits at the start of `s`. */
  predicate NumericAt(s: string) {
    && |s| >= 4 && s[0] == '&' && s[1] == '#'
    && (DecimalAt(s, 1) || DecimalAt(s, 2) || DecimalAt(s, 3) || HexAt(s, 1) || HexAt(s, 2))
  }

  predicate NumericAhead(s: string) {
    s != "" && (NumericAt(s) || NumericAhead(s[1..]))
  }

  predicate LineEnd(c: char) {
    c == '\n' || c == '\r' || c == '\U{000C}'
  }

  /** A written-out ampersand at the start of a later line of `s`. */
  predicate AmpersandLineAhead(s: string) {
    s != "" && ((LineEnd(s[0]) && "&amp;" <= s[1..]) || AmpersandLineAhead(s[1..]))
  }

  /** Whether an ampersand at the start of `s` is left alone. The anchor of the expression binds to its
      first alternative alone, so a numeric entity anywhere behind the ampersand is enough; and it
      matches behind every line end, so a later line that begins with "&amp;" is enough, too. */
  predicate LeavesAmp(s: string) {
    "&amp;" <= s || AmpersandLineAhead(s) || NumericAhead(s)
  }

  /** What the first character of `s` is encoded as. */
  function EncodeFirst(s: string, f: Flags): string
    requires s != ""
  {
    var c := s[0];
    if c == '&' && f.amps then if LeavesAmp(s) then [c] else "&amp;"
    else if c == '&' && f.doubleAmps then "&amp;"
    else if c == '<' && f.angles then "&lt;"
    else if c == '>' && f.angles then "&gt;"
    else if c == '"' && f.quotes then "&quot;"
    else [c]
  }

  function Encode(s: string, f: Flags): string {
    if s == "" then "" else EncodeFirst(s, f) + Encode(s[1..], f)
  }

  /** Appends `piece`; `after` is what is still to come. */
  function Emit(tgt: string, piece: string, ghost after: string): (r: string)
    ensures r == tgt + piece && r + after == tgt + (piece + after)
  {
    tgt + piece
  }

  /** The body of the encoding loop, `rest` being the text from the iterator on. */
  method EncodePiece(rest: string, f: Flags) returns (piece: string)
    requires rest != ""
    ensures piece == EncodeFirst(rest, f)
  {
    var c := rest[0];
    if c == '&' && f.amps {
      piece := if LeavesAmp(rest) then [c] else "&amp;";
    } else if c == '&' && f.doubleAmps {
      piece := "&amp;";
    } else if c == '<' && f.angles {
      piece := "&lt;";
    } else if c == '>' && f.angles {
      piece := "&gt;";
    } else if c == '"' && f.quotes {
      piece := "&quot;";
    } else {
      piece := [c];
    }
  }

  /** encodeString. */
  method EncodeString(src: string, f: Flags) returns (tgt: string)
    ensures tgt == Encode(src, f)
  {
    tgt := "";
    var i := 0;
    assert src[0..] == src;
    while i < |src|
      invariant i <= |src| && tgt + Encode(src[i..], f) == Encode(src, f)
    {
      assert src[i..][1..] == src[i + 1..];
      var piece := EncodePiece(src[i..], f);
      tgt := Emit(tgt, piece, Encode(src[i + 1..], f));
      i := i + 1;
    }
  }

  /** Characters that every choice of flags leaves alone. */
  predicate Letters(p: string) {
    forall i :: 0 <= i < |p| ==> p[i] != '&' && p[i] != '<' && p[i] != '>' && p[i] != '"'
  }

  /** The name part of the entity that follows an ampersand, or nothing. */
  function EntityName(t: string): (name: string)
    ensures name <= t && Letters(name)
  {
    if "amp;" <= t then "amp;"
    else if "lt;" <= t then "lt;"
    else if "gt;" <= t then "gt;"
    else if "quot;" <= t then "quot;"
    else ""
  }

  /** What an entity of that name stands for. */
  function Meant(name: string): char {
    if name == "amp;" then '&' else if name == "lt;" then '<' else if name == "gt;" then '>' else '"'
  }

  /** Reads the four named entities back; everything else stands for itself. */
  function Decode(s: string): string
    decreases |s|
  {
    if s == "" then ""
    else if s[0] == '&' && EntityName(s[1..]) != "" then
      [Meant(EntityName(s[1..]))] + Decode(s[1 + |EntityName(s[1..])|..])
    else [s[0]] + Decode(s[1..])
  }

  /** An entity is read back as one character. */
  lemma DecodeEntity(t: string, name: string, s: string)
    requires t != "" && t[0] == '&' && t[1..] == name + s && name != "" && EntityName(t[1..]) == name
    ensures Decode(t) == [Meant(name)] + Decode(s)
  {
    assert t[1 + |name|..] == t[1..][|name|..] == s;
  }

  lemma DecodeAmp(s: string)
    ensures Decode("&amp;" + s) == ['&'] + Decode(s)
  {
    var t := "&amp;" + s;
    assert t[1..] == "amp;" + s && t[1] == 'a';
    DecodeEntity(t, "amp;", s);
  }

  lemma DecodeLt(s: string)
    ensures Decode("&lt;" + s) == ['<'] + Decode(s)
  {
    var t := "&lt;" + s;
    assert t[1..] == "lt;" + s && t[1] == 'l';
    DecodeEntity(t, "lt;", s);
  }

  lemma DecodeGt(s: string)
    ensures Decode("&gt;" + s) == ['>'] + Decode(s)
  {
    var t := "&gt;" + s;
    assert t[1..] == "gt;" + s && t[1] == 'g';
    DecodeEntity(t, "gt;", s);
  }

  lemma DecodeQuot(s: string)
    ensures Decode("&quot;" + s) == ['"'] + Decode(s)
  {
    var t := "&quot;" + s;
    assert t[1..] == "quot;" + s && t[1] == 'q';
    DecodeEntity(t, "quot;", s);
  }

  lemma DecodePlain(c: char, s: string)
    requires c != '&'
    ensures Decode([c] + s) == [c] + Decode(s)
  {
    var t := [c] + s;
    assert t[0] == c && t[1..] == s;
  }

  /** Code keeps its text: decoding the encoded text gives it back. */
  lemma {:induction false} CodeRoundTrip(s: string)
    ensures Decode(Encode(s, CODE)) == s
  {
    if s != "" {
      CodeRoundTrip(s[1..]);
      var rest := Encode(s[1..], CODE);
      match s[0]
      case '&' => DecodeAmp(rest);
      case '<' => DecodeLt(rest);
      case '>' => DecodeGt(rest);
      case '"' => DecodeQuot(rest);
      case _ => DecodePlain(s[0], rest);
    }
  }

  predicate Safe(s: string, f: Flags) {
    (f.angles ==> '<' !in s && '>' !in s) && (f.quotes ==> '"' !in s)
  }

  lemma SafeAppend(a: string, b: string, f: Flags)
    requires Safe(a, f) && Safe(b, f)
    ensures Safe(a + b, f)
  {
  }

  lemma EncodedFirstIsSafe(s: string, f: Flags)
    requires s != ""
    ensures Safe(EncodeFirst(s, f), f)
  {
  }

  /** Under any flags, no raw angle bracket or quote is left where the flags ask for encoding. */
  lemma {:induction false} EncodedIsSafe(s: string, f: Flags)
    ensures Safe(Encode(s, f), f)
  {
    if s != "" {
      EncodedIsSafe(s[1..], f);
      EncodedFirstIsSafe(s, f);
      SafeAppend(EncodeFirst(s, f), Encode(s[1..], f), f);
    }
  }

  /** Text flags do not keep the text: a lone ampersand and a written-out one come out the same. */
  lemma TextCollides()
    ensures Encode("&", TEXT) == Encode("&amp;", TEXT) == "&amp;"
  {
    assert Encode("", TEXT) == "";
    assert "&"[1..] == "";
    assert "&amp;"[1..] == "amp;" && "amp;"[1..] == "mp;" && "mp;"[1..] == "p;" && "p;"[1..] == ";" && ";"[1..] == "";
    assert Encode(";", TEXT) == ";";
    assert Encode("p;", TEXT) == "p;";
    assert Encode("mp;", TEXT) == "mp;";
    assert Encode("amp;", TEXT) == "amp;";
    assert !NumericAhead("") && !AmpersandLineAhead("");
  }

  // ---------------------------------------------------------------- which texts are kept

  /** No ampersand that the encoder leaves alone begins an entity. */
  predicate Keeps(s: string, f: Flags) {
    s != "" ==> (s[0] == '&' && EncodeFirst(s, f) == ['&'] ==> EntityName(s[1..]) == "") && Keeps(s[1..], f)
  }

  lemma {:induction false} LettersPass(p: string, t: string, f: Flags)
    requires Letters(p)
    ensures Encode(p + t, f) == p + Encode(t, f)
    decreases |p|
  {
    if p == "" {
      assert p + t == t;
    } else {
      var all := p + t;
      assert all[1..] == p[1..] + t && EncodeFirst(all, f) == [p[0]];
      LettersPass(p[1..], t, f);
      HeadOff(p, Encode(t, f));
    }
  }

  lemma HeadAndTail(p: string, t: string)
    requires p != "" && t != ""
    ensures p <= t <==> p[0] == t[0] && p[1..] <= t[1..]
  {
    if p[0] == t[0] && p[1..] <= t[1..] {
      assert forall i :: 1 <= i < |p| ==> p[i] == p[1..][i - 1] == t[1..][i - 1] == t[i];
    }
    if p <= t {
      assert forall i :: 0 <= i < |p| - 1 ==> p[1..][i] == t[1..][i];
    }
  }

  /** Encoding neither makes nor breaks a run of such characters. */
  lemma {:induction false} LettersKept(p: string, t: string, f: Flags)
    requires Letters(p)
    ensures p <= Encode(t, f) <==> p <= t
    decreases |p|
  {
    if p != "" && t != "" {
      LettersKept(p[1..], t[1..], f);
      var first := EncodeFirst(t, f);
      assert first == [t[0]] || first[0] == '&';
      assert p == [p[0]] + p[1..] && t == [t[0]] + t[1..];
      if first == [t[0]] {
        assert Encode(t, f)[1..] == Encode(t[1..], f);
        HeadAndTail(p, t);
        HeadAndTail(p, Encode(t, f));
      }
    }
  }

  lemma AmpKept(t: string, f: Flags)
    ensures "amp;" <= Encode(t, f) <==> "amp;" <= t
  {
    LettersKept("amp;", t, f);
  }

  lemma LtKept(t: string, f: Flags)
    ensures "lt;" <= Encode(t, f) <==> "lt;" <= t
  {
    LettersKept("lt;", t, f);
  }

  lemma GtKept(t: string, f: Flags)
    ensures "gt;" <= Encode(t, f) <==> "gt;" <= t
  {
    LettersKept("gt;", t, f);
  }

  lemma QuotKept(t: string, f: Flags)
    ensures "quot;" <= Encode(t, f) <==> "quot;" <= t
  {
    LettersKept("quot;", t, f);
  }

  lemma NameKept(t: string, f: Flags)
    ensures EntityName(Encode(t, f)) == EntityName(t)
  {
    AmpKept(t, f);
    LtKept(t, f);
    GtKept(t, f);
    QuotKept(t, f);
  }

  /** An entity is read back as one character, a bare ampersand as itself. */
  lemma DecodeAmpersand(t: string)
    ensures var n := |EntityName(t)|; |Decode(['&'] + t)| == 1 + |Decode(t[n..])|
    ensures EntityName(t) == "" ==> Decode(['&'] + t) == ['&'] + Decode(t)
  {
    var s, n := ['&'] + t, |EntityName(t)|;
    assert s[1..] == t && s[1 + n..] == t[n..];
  }

  lemma DecodeFirst(s: string, f: Flags)
    requires s != ""
    requires s[0] == '&' ==> EncodeFirst(s, f) != ['&']
    ensures Decode(Encode(s, f)) == [s[0]] + Decode(Encode(s[1..], f))
  {
    var rest := Encode(s[1..], f);
    match s[0]
    case '&' => DecodeAmp(rest);
    case '<' => DecodeLt(rest); DecodePlain('<', rest);
    case '>' => DecodeGt(rest); DecodePlain('>', rest);
    case '"' => DecodeQuot(rest); DecodePlain('"', rest);
    case _ => DecodePlain(s[0], rest);
  }

  lemma EntityShortens(t: string, f: Flags)
    ensures var n := |EntityName(t)|; |Decode(['&'] + Encode(t, f))| == 1 + |Decode(Encode(t[n..], f))|
  {
    var name := EntityName(t);
    var rest := t[|name|..];
    NameKept(t, f);
    DecodeAmpersand(Encode(t, f));
    assert t == name + rest;
    LettersPass(name, rest, f);
    assert (name + Encode(rest, f))[|name|..] == Encode(rest, f);
  }

  /** Decoding never gives more than was encoded, and gives less where an entity was left alone. */
  lemma {:induction false} DecodedLength(s: string, f: Flags)
    ensures |Decode(Encode(s, f))| <= |s|
    ensures !Keeps(s, f) ==> |Decode(Encode(s, f))| < |s|
    decreases |s|
  {
    if s != "" {
      DecodedLength(s[1..], f);
      if s[0] == '&' && EncodeFirst(s, f) == ['&'] {
        EntityShortens(s[1..], f);
        DecodedLength(s[1..][|EntityName(s[1..])|..], f);
      } else {
        DecodeFirst(s, f);
      }
    }
  }

  lemma {:induction false} KeptComesBack(s: string, f: Flags)
    requires Keeps(s, f)
    ensures Decode(Encode(s, f)) == s
    decreases |s|
  {
    if s != "" {
      KeptComesBack(s[1..], f);
      assert s == [s[0]] + s[1..];
      if s[0] == '&' && EncodeFirst(s, f) == ['&'] {
        NameKept(s[1..], f);
        DecodeAmpersand(Encode(s[1..], f));
      } else {
        DecodeFirst(s, f);
      }
    }
  }

  /** Under any flags, a text comes back if and only if no ampersand that the encoder leaves alone
      begins an entity. */
  lemma EncodedComesBack(s: string, f: Flags)
    ensures Decode(Encode(s, f)) == s <==> Keeps(s, f)
  {
    if Keeps(s, f) {
      KeptComesBack(s, f);
    } else {
      DecodedLength(s, f);
    }
  }

  // ---------------------------------------------------------------- ampersands left bare

  /** The ampersand at the start of `s` begins a named or a numeric entity. */
  predicate BeginsEntity(s: string)
    requires s != "" && s[0] == '&'
  {
    EntityName(s[1..]) != "" || NumericAt(s)
  }

  /** Some ampersand begins no entity. */
  predicate HasBareAmp(s: string) {
    s != "" && ((s[0] == '&' && !BeginsEntity(s)) || HasBareAmp(s[1..]))
  }

  /** Some ampersand begins no entity and is left alone all the same. */
  predicate LeavesBareAmp(s: string) {
    s != "" && ((s[0] == '&' && LeavesAmp(s) && !BeginsEntity(s)) || LeavesBareAmp(s[1..]))
  }

  /** The numeric entity that an ampersand in front of `t` would begin. */
  lemma NumericPart(t: string) returns (p: string)
    requires NumericAt(['&'] + t)
    ensures Letters(p) && p <= t && NumericAt(['&'] + p)
  {
    var s := ['&'] + t;
    var n := if DecimalAt(s, 1) then 4 else if DecimalAt(s, 2) then 5 else if DecimalAt(s, 3) then 6
             else if HexAt(s, 1) then 5 else 6;
    p := t[..n - 1];
    var q := ['&'] + p;
    assert forall i :: 0 <= i < |q| ==> q[i] == s[i];
    assert forall i :: 0 <= i < |p| ==> p[i] == s[i + 1];
  }

  lemma NumericWhole(p: string, t: string)
    requires p <= t && NumericAt(['&'] + p)
    ensures NumericAt(['&'] + t)
  {
    var q, s := ['&'] + p, ['&'] + t;
    assert forall i :: 0 <= i < |q| ==> q[i] == s[i];
  }

  lemma NumericKept(t: string, f: Flags)
    ensures NumericAt(['&'] + Encode(t, f)) <==> NumericAt(['&'] + t)
  {
    if NumericAt(['&'] + t) {
      var p := NumericPart(t);
      LettersKept(p, t, f);
      NumericWhole(p, Encode(t, f));
    }
    if NumericAt(['&'] + Encode(t, f)) {
      var p := NumericPart(Encode(t, f));
      LettersKept(p, t, f);
      NumericWhole(p, t);
    }
  }

  lemma EntityKept(t: string, f: Flags)
    ensures BeginsEntity(['&'] + Encode(t, f)) <==> BeginsEntity(['&'] + t)
  {
    NameKept(t, f);
    NumericKept(t, f);
    assert (['&'] + t)[1..] == t && (['&'] + Encode(t, f))[1..] == Encode(t, f);
  }

  lemma {:induction false} BareBehind(a: string, b: string)
    requires '&' !in a
    ensures HasBareAmp(a + b) <==> HasBareAmp(b)
    decreases |a|
  {
    if a == "" {
      assert a + b == b;
    } else {
      assert (a + b)[0] == a[0] && (a + b)[1..] == a[1..] + b;
      BareBehind(a[1..], b);
    }
  }

  /** An entity that the encoder writes holds no bare ampersand. */
  lemma BareBehindEntity(name: string, b: string)
    requires name != "" && EntityName(name + b) == name
    ensures HasBareAmp(['&'] + (name + b)) <==> HasBareAmp(b)
  {
    var s := ['&'] + (name + b);
    assert s[1..] == name + b;
    BareBehind(name, b);
  }

  lemma BareBehindWritten(entity: string, name: string, b: string)
    requires entity == "&amp;" || entity == "&lt;" || entity == "&gt;" || entity == "&quot;"
    requires name == entity[1..]
    ensures HasBareAmp(['&'] + (name + b)) <==> HasBareAmp(b)
  {
    assert (name + b)[0] == name[0];
    BareBehindEntity(name, b);
  }

  lemma BareBehindFirst(s: string, f: Flags)
    requires s != "" && f.amps && EncodeFirst(s, f) != ['&']
    ensures HasBareAmp(EncodeFirst(s, f) + Encode(s[1..], f)) <==> HasBareAmp(Encode(s[1..], f))
  {
    var first, rest := EncodeFirst(s, f), Encode(s[1..], f);
    if first == [s[0]] {
      BareBehind(first, rest);
    } else {
      var name := first[1..];
      assert first == ['&'] + name;
      assert first + rest == ['&'] + (name + rest);
      BareBehindWritten(first, name, rest);
    }
  }

  /** Where ampersands are to be encoded, the output holds one that begins no entity if and only if the
      text has one that the encoder leaves alone although it begins none. */
  lemma {:induction false} BareAmpsLeft(s: string, f: Flags)
    requires f.amps
    ensures HasBareAmp(Encode(s, f)) <==> LeavesBareAmp(s)
    decreases |s|
  {
    if s != "" {
      BareAmpsLeft(s[1..], f);
      var rest := Encode(s[1..], f);
      if EncodeFirst(s, f) == ['&'] {
        assert (['&'] + rest)[1..] == rest && s == ['&'] + s[1..];
        EntityKept(s[1..], f);
      } else {
        BareBehindFirst(s, f);
      }
    }
  }

  /** An ampersand that is left bare because of a numeric entity elsewhere. */
  lemma BareAmpExample()
    ensures Encode("& &#1;", TEXT) == "& &#1;" && HasBareAmp("& &#1;")
  {
  }

  /** An ampersand that is left bare because a later line begins with a written-out one. */
  lemma BareAmpLineExample()
    ensures EncodeFirst("&\n&amp;", TEXT) == "&" && LeavesBareAmp("&\n&amp;")
  {
  }

  // ---------------------------------------------------------------- e-mail addresses

  /** The strings of the original are bytes. */
  predicate Bytes(s: string) {
    forall i :: 0 <= i < |s| ==> s[i] as int < 256
  }

  function EmailFirst(c: char, inHex: bool): string {
    if c as int >= 128 then [c]
    else if inHex then ['&', '#', 'x'] + Print(c as int, 16) + [';']
    else ['&', '#'] + Print(c as int, 10) + [';']
  }

  /** The encoding switches between decimal and hexadecimal at every character. */
  function EmailEncode(s: string, inHex: bool): string {
    if s == "" then "" else EmailFirst(s[0], inHex) + EmailEncode(s[1..], !inHex)
  }

  method EmailPiece(c: char, inHex: bool) returns (piece: string)
    ensures piece == EmailFirst(c, inHex)
  {
    if c as int >= 128 {
      piece := [c];
    } else if inHex {
      piece := ['&', '#', 'x'] + Print(c as int, 16) + [';'];
    } else {
      piece := ['&', '#'] + Print(c as int, 10) + [';'];
    }
  }

  /** emailEncode. */
  method EncodeEmail(src: string) returns (out: string)
    ensures out == EmailEncode(src, false)
  {
    out := "";
    var inHex := false;
    var i := 0;
    assert src[0..] == src;
    while i < |src|
      invariant i <= |src| && out + EmailEncode(src[i..], inHex) == EmailEncode(src, false)
    {
      assert src[i..][1..] == src[i + 1..];
      var piece := EmailPiece(src[i], inHex);
      assert EmailEncode(src[i..], inHex) == piece + EmailEncode(src[i + 1..], !inHex);
      out := Emit(out, piece, EmailEncode(src[i + 1..], !inHex));
      inHex := !inHex;
      i := i + 1;
    }
  }

  /** Reads numeric entities back, without being told which base comes next. */
  function DecodeNumeric(s: string): string
    decreases |s|
  {
    if s == "" then ""
    else if |s| < 3 || s[0] != '&' || s[1] != '#' then [s[0]] + DecodeNumeric(s[1..])
    else
      var base: Base := if s[2] == 'x' then 16 else 10;
      var digits := if s[2] == 'x' then s[3..] else s[2..];
      var k := IndexOf(digits, ';');
      if k == |digits| || Read(digits[..k], base) >= 128 then [s[0]] + DecodeNumeric(s[1..])
      else [Read(digits[..k], base) as char] + DecodeNumeric(digits[k + 1..])
  }

  lemma {:induction false} DigitsEnd(d: string, rest: string)
    requires AllDigits(d, 16)
    ensures IndexOf(d + ([';'] + rest), ';') == |d|
    decreases |d|
  {
    var s := d + ([';'] + rest);
    if d == "" {
      assert s[0] == ';';
    } else {
      assert s[1..] == d[1..] + ([';'] + rest);
      DigitsEnd(d[1..], rest);
    }
  }

  lemma NumberEnds(n: nat, base: Base, rest: string)
    ensures var d, s := Print(n, base), Print(n, base) + ([';'] + rest);
      IndexOf(s, ';') == |d| && s[..|d|] == d && s[|d| + 1..] == rest && Read(d, base) == n
  {
    ReadPrint(n, base);
    DigitsEnd(Print(n, base), rest);
  }

  lemma DecodeDecimal(c: char, rest: string)
    requires c as int < 128
    ensures DecodeNumeric(EmailFirst(c, false) + rest) == [c] + DecodeNumeric(rest)
  {
    var d := Print(c as int, 10);
    var s := EmailFirst(c, false) + rest;
    assert s == ['&', '#'] + (d + ([';'] + rest));
    assert s[2..] == d + ([';'] + rest) && s[2] == d[0] && d[0] != 'x';
    NumberEnds(c as int, 10, rest);
  }

  lemma DecodeHex(c: char, rest: string)
    requires c as int < 128
    ensures DecodeNumeric(EmailFirst(c, true) + rest) == [c] + DecodeNumeric(rest)
  {
    var d := Print(c as int, 16);
    var s := EmailFirst(c, true) + rest;
    assert s == ['&', '#', 'x'] + (d + ([';'] + rest));
    assert s[3..] == d + ([';'] + rest);
    NumberEnds(c as int, 16, rest);
  }

  /** Decoding an encoded address gives it back, whichever base the encoding starts in. */
  lemma {:induction false} EmailRoundTrip(s: string, inHex: bool)
    requires Bytes(s)
    ensures DecodeNumeric(EmailEncode(s, inHex)) == s
    decreases |s|
  {
    if s != "" {
      var rest := EmailEncode(s[1..], !inHex);
      EmailRoundTrip(s[1..], !inHex);
      if s[0] as int >= 128 {
        assert ([s[0]] + rest)[1..] == rest;
      } else if inHex {
        DecodeHex(s[0], rest);
      } else {
        DecodeDecimal(s[0], rest);
      }
    }
  }
}
