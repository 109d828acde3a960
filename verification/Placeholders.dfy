/** The placeholders that stand for hidden pieces of a text between the markdown passes, and the
    two readers that put the pieces back (_restoreProcessedItems, _encodeProcessedItems). */
module Placeholders {
  import opened Wrappers
  import opened Numerals

  /** The control character that opens and closes a placeholder. */
  const MARK: char := '\U{1}'

  const ESCAPABLE: string := "\\`*_{}[]()#+-.!>"

  /** An entry of the replacement table, as far as restoring is concerned: a code span writes
      its text between backticks, every other token the HTML it stands for. */
  datatype Hidden = CodeSpan(text: string) | Markup(html: string)

  /** What writeAsOriginal puts out for an entry. */
  function Original(h: Hidden): string {
    match h
    case CodeSpan(text) => ['`'] + text + ['`']
    case Markup(html) => html
  }

  /** The reference part of a placeholder: an optional '#' and digits. */
  predicate IsRef(ref: string) {
    if ref != "" && ref[0] == '#' then AllDigits(ref[1..], 10) else AllDigits(ref, 10)
  }

  function Placeholder(ref: string, name: string): string {
    [MARK, '@'] + ref + ['@'] + name + [MARK]
  }

  // ---------------------------------------------------------------- matching

  function DigitRun(s: string): (k: nat)
    ensures k <= |s| && AllDigits(s[..k], 10) && (k < |s| ==> !IsDigit(s[k], 10))
  {
    if s != "" && IsDigit(s[0], 10) then
      var k := 1 + DigitRun(s[1..]);
      assert forall i :: 1 <= i < k ==> s[i] == s[1..][i - 1];
      k
    else 0
  }

  function IndexOf(s: string, c: char): (k: nat)
    ensures k <= |s| && (k < |s| ==> s[k] == c) && forall i :: 0 <= i < k ==> s[i] != c
  {
    if s == "" || s[0] == c then 0 else 1 + IndexOf(s[1..], c)
  }

  /** A match of the placeholder expression at the start of a text. */
  datatype Match = Match(ref: string, length: nat)

  /** The length of the reference part at the start of `s`. */
  function RefLength(s: string): (k: nat)
    ensures k <= |s|
  {
    if s != "" && s[0] == '#' then 1 + DigitRun(s[1..]) else DigitRun(s)
  }

  /** The expression \x01@(#?[0-9]*)@.+?\x01 at the start of `s`. The name part is at least one
      character, whatever it is, and then runs to the next mark. */
  function MatchAt(s: string): (m: Option<Match>)
    ensures m.Some? ==> 5 <= m.value.length <= |s|
  {
    if |s| < 2 || s[0] != MARK || s[1] != '@' then None
    else
      var k := RefLength(s[2..]);
      if |s| < k + 4 || s[k + 2] != '@' then None
      else
        var n := IndexOf(s[k + 4..], MARK);
        if k + 4 + n == |s| then None else Some(Match(s[2..k + 2], k + 5 + n))
  }

  // ---------------------------------------------------------------- restoring

  /** A reference whose item exists: nothing, an escape index, or a table index. */
  predicate ValidRef(ref: string, n: nat) {
    if ref == "" then true
    else if ref[0] == '#' then |ref| >= 2 && Read(ref[1..], 10) < |ESCAPABLE|
    else Read(ref, 10) < n
  }

  function OriginalOf(ref: string, table: seq<Hidden>): string
    requires ValidRef(ref, |table|)
  {
    if ref == "" then ""
    else if ref[0] == '#' then ['\\', ESCAPABLE[Read(ref[1..], 10)]]
    else Original(table[Read(ref, 10)])
  }

  /** A text cut at its placeholders. */
  datatype Pieces = End | Letter(c: char, rest: Pieces) | Item(ref: string, rest: Pieces)

  function Cut(s: string): Pieces
    decreases |s|
  {
    if s == "" then End
    else
      match MatchAt(s)
      case Some(m) => Item(m.ref, Cut(s[m.length..]))
      case None => Letter(s[0], Cut(s[1..]))
  }

  /** Every match that a search over the text comes to has a valid reference: the assertions that
      the index is below the table size hold. */
  predicate RefsOk(p: Pieces, n: nat) {
    match p
    case End => true
    case Letter(_, rest) => RefsOk(rest, n)
    case Item(ref, rest) => ValidRef(ref, n) && RefsOk(rest, n)
  }

  /** The text with every placeholder replaced by what it hides. */
  function Restored(p: Pieces, table: seq<Hidden>): string
    requires RefsOk(p, |table|)
  {
    match p
    case End => ""
    case Letter(c, rest) => [c] + Restored(rest, table)
    case Item(ref, rest) => OriginalOf(ref, table) + Restored(rest, table)
  }

  function Restore(s: string, table: seq<Hidden>): string
    requires RefsOk(Cut(s), |table|)
  {
    Restored(Cut(s), table)
  }

  /** The leftmost match as regex_search finds it: the text before it, its reference, and the text
      behind it. */
  datatype Hit = NoHit | Hit(pre: string, ref: string, rest: string)

  function Search(s: string): (h: Hit)
    ensures h.Hit? ==> |h.rest| < |s|
  {
    if s == "" then NoHit
    else
      match MatchAt(s)
      case Some(m) => Hit("", m.ref, s[m.length..])
      case None =>
        match Search(s[1..])
        case Hit(pre, ref, rest) => Hit([s[0]] + pre, ref, rest)
        case NoHit => NoHit
  }

  lemma HeadOff(a: string, b: string)
    requires a != ""
    ensures a + b == [a[0]] + (a[1..] + b)
  {
  }

  lemma Grouped(a: string, b: string, c: string)
    ensures (a + b) + c == a + (b + c)
  {
  }

  lemma Assoc(a: string, b: string, c: string, d: string)
    ensures a + (b + c + d) == (a + b) + c + d
    ensures a + (b + (c + d)) == a + b + c + d
  {
  }

  lemma SearchStep(s: string)
    requires s != "" && MatchAt(s).None?
    ensures Cut(s) == Letter(s[0], Cut(s[1..]))
    ensures var h := Search(s[1..]);
            Search(s) == if h.Hit? then Hit([s[0]] + h.pre, h.ref, h.rest) else NoHit
  {
  }

  lemma SearchHit(s: string)
    requires s != "" && MatchAt(s).Some?
    ensures var m := MatchAt(s).value;
            Cut(s) == Item(m.ref, Cut(s[m.length..])) && Search(s) == Hit("", m.ref, s[m.length..])
  {
  }

  lemma {:induction false} SearchRestores(s: string, table: seq<Hidden>)
    requires RefsOk(Cut(s), |table|)
    ensures match Search(s)
            case NoHit => Restore(s, table) == s
            case Hit(pre, ref, rest) =>
              && ValidRef(ref, |table|) && RefsOk(Cut(rest), |table|)
              && Restore(s, table) == pre + OriginalOf(ref, table) + Restore(rest, table)
    decreases |s|
  {
    if s == "" {
    } else if MatchAt(s).Some? {
      SearchHit(s);
      var o := OriginalOf(MatchAt(s).value.ref, table);
      assert "" + o == o;
    } else {
      SearchStep(s);
      SearchRestores(s[1..], table);
      var h := Search(s[1..]);
      if h.Hit? {
        Assoc([s[0]], h.pre, OriginalOf(h.ref, table), Restore(h.rest, table));
      }
    }
  }

  method WriteOriginal(ref: string, table: seq<Hidden>) returns (w: string)
    requires ValidRef(ref, |table|)
    ensures w == OriginalOf(ref, table)
  {
    w := "";
    if ref != "" && ref[0] == '#' {
      var n := Read(ref[1..], 10);
      w := ['\\', ESCAPABLE[n]];
    } else if ref != "" {
      var n := Read(ref, 10);
      assert n < |table|;
      w := Original(table[n]);
    }
  }

  /** _restoreProcessedItems, `rest` being the text from the iterator `prev` on. */
  method RestoreProcessedItems(src: string, table: seq<Hidden>) returns (r: string)
    requires RefsOk(Cut(src), |table|)
    ensures r == Restore(src, table)
  {
    r := "";
    var rest := src;
    ghost var goal := Restore(src, table);
    while true
      invariant RefsOk(Cut(rest), |table|)
      invariant r + Restore(rest, table) == goal
      decreases |rest|
    {
      SearchRestores(rest, table);
      match Search(rest) {
        case Hit(pre, ref, after) =>
          var w := WriteOriginal(ref, table);
          Assoc(r, pre, w, Restore(after, table));
          r, rest := r + pre + w, after;
        case NoHit =>
          r := r + rest;
          return;
      }
    }
  }

  // ---------------------------------------------------------------- splitting into tokens

  /** What _encodeProcessedItems puts in the token list: the text between placeholders as raw text,
      escaped characters, and table entries. */
  datatype Encoded = Raw(text: string) | Escaped(c: char) | Stored(h: Hidden)

  /** The source text of such a token. */
  function SourceOf(e: Encoded): string {
    match e
    case Raw(text) => text
    case Escaped(c) => ['\\', c]
    case Stored(h) => Original(h)
  }

  function Sources(es: seq<Encoded>): string {
    if es == [] then "" else SourceOf(es[0]) + Sources(es[1..])
  }

  function EncodedOf(ref: string, table: seq<Hidden>): seq<Encoded>
    requires ValidRef(ref, |table|)
  {
    if ref == "" then []
    else if ref[0] == '#' then [Escaped(ESCAPABLE[Read(ref[1..], 10)])]
    else [Stored(table[Read(ref, 10)])]
  }

  function RawIf(text: string): seq<Encoded> {
    if text == "" then [] else [Raw(text)]
  }

  /** The tokens of a text: maximal runs of letters as raw text, and one token for each placeholder
      that refers to something. */
  function EncodePieces(run: string, p: Pieces, table: seq<Hidden>): seq<Encoded>
    requires RefsOk(p, |table|)
    decreases p
  {
    match p
    case End => RawIf(run)
    case Letter(c, rest) => EncodePieces(run + [c], rest, table)
    case Item(ref, rest) => RawIf(run) + EncodedOf(ref, table) + EncodePieces("", rest, table)
  }

  lemma SourcesCons(e: Encoded, es: seq<Encoded>)
    ensures Sources([e] + es) == SourceOf(e) + Sources(es)
  {
    assert ([e] + es)[1..] == es;
  }

  lemma SourcesOfRaw(run: string, es: seq<Encoded>)
    ensures Sources(RawIf(run) + es) == run + Sources(es)
  {
    if run == "" {
      assert RawIf(run) + es == es && run + Sources(es) == Sources(es);
    } else {
      SourcesCons(Raw(run), es);
    }
  }

  lemma SourcesOfRef(ref: string, table: seq<Hidden>, es: seq<Encoded>)
    requires ValidRef(ref, |table|)
    ensures Sources(EncodedOf(ref, table) + es) == OriginalOf(ref, table) + Sources(es)
  {
    if ref == "" {
      assert EncodedOf(ref, table) + es == es && "" + Sources(es) == Sources(es);
    } else {
      SourcesCons(EncodedOf(ref, table)[0], es);
    }
  }

  lemma HeadMoves(a: string, c: char, b: string)
    ensures a + [c] + b == a + ([c] + b)
  {
  }

  /** Splitting and restoring agree: put back in source form, the tokens are the restored text. */
  lemma {:induction false} EncodeAgreesWithRestore(run: string, p: Pieces, table: seq<Hidden>)
    requires RefsOk(p, |table|)
    ensures Sources(EncodePieces(run, p, table)) == run + Restored(p, table)
    decreases p
  {
    match p
    case End =>
      SourcesOfRaw(run, []);
      assert RawIf(run) + [] == RawIf(run);
    case Letter(c, rest) =>
      EncodeAgreesWithRestore(run + [c], rest, table);
      HeadMoves(run, c, Restored(rest, table));
    case Item(ref, rest) =>
      var es := EncodePieces("", rest, table);
      EncodeAgreesWithRestore("", rest, table);
      assert RawIf(run) + EncodedOf(ref, table) + es == RawIf(run) + (EncodedOf(ref, table) + es);
      SourcesOfRaw(run, EncodedOf(ref, table) + es);
      SourcesOfRef(ref, table, es);
      assert "" + Restored(rest, table) == Restored(rest, table);
  }

  // ---------------------------------------------------------------- what the tokens are

  /** The table indices that the placeholders of a text carry, in their order. */
  function Indices(p: Pieces): seq<nat> {
    match p
    case End => []
    case Letter(_, rest) => Indices(rest)
    case Item(ref, rest) => if ref == "" || ref[0] == '#' then Indices(rest) else [Read(ref, 10)] + Indices(rest)
  }

  /** The escape indices that the placeholders of a text carry. */
  function EscapeIndices(p: Pieces): seq<nat> {
    match p
    case End => []
    case Letter(_, rest) => EscapeIndices(rest)
    case Item(ref, rest) =>
      if ref == "" || ref[0] != '#' then EscapeIndices(rest) else [Read(ref[1..], 10)] + EscapeIndices(rest)
  }

  /** The text between the placeholders. */
  function Between(p: Pieces): string {
    match p
    case End => ""
    case Letter(c, rest) => [c] + Between(rest)
    case Item(_, rest) => Between(rest)
  }

  function StoredIn(es: seq<Encoded>): seq<Hidden> {
    if es == [] then [] else if es[0].Stored? then [es[0].h] + StoredIn(es[1..]) else StoredIn(es[1..])
  }

  function EscapedIn(es: seq<Encoded>): string {
    if es == [] then "" else if es[0].Escaped? then [es[0].c] + EscapedIn(es[1..]) else EscapedIn(es[1..])
  }

  function RawIn(es: seq<Encoded>): string {
    if es == [] then "" else if es[0].Raw? then es[0].text + RawIn(es[1..]) else RawIn(es[1..])
  }

  predicate NoEmptyRaw(es: seq<Encoded>) {
    forall i :: 0 <= i < |es| && es[i].Raw? ==> es[i].text != ""
  }

  /** The items of a table that some indices select, one by one. */
  predicate Selects<T(==)>(xs: seq<T>, ks: seq<nat>, table: seq<T>) {
    |xs| == |ks| && forall i :: 0 <= i < |ks| ==> ks[i] < |table| && xs[i] == table[ks[i]]
  }

  lemma SelectsMore<T>(x: T, k: nat, xs: seq<T>, ks: seq<nat>, table: seq<T>)
    requires k < |table| && x == table[k] && Selects(xs, ks, table)
    ensures Selects([x] + xs, [k] + ks, table)
  {
  }

  lemma StoredMore(e: Encoded, es: seq<Encoded>)
    ensures StoredIn([e] + es) == if e.Stored? then [e.h] + StoredIn(es) else StoredIn(es)
  {
    assert ([e] + es)[1..] == es;
  }

  lemma EscapedMore(e: Encoded, es: seq<Encoded>)
    ensures EscapedIn([e] + es) == if e.Escaped? then [e.c] + EscapedIn(es) else EscapedIn(es)
  {
    assert ([e] + es)[1..] == es;
  }

  lemma RawMore(e: Encoded, es: seq<Encoded>)
    ensures RawIn([e] + es) == if e.Raw? then e.text + RawIn(es) else RawIn(es)
  {
    assert ([e] + es)[1..] == es;
  }

  /** The raw text in front of some tokens. */
  lemma BehindRaw(run: string, es: seq<Encoded>)
    ensures StoredIn(RawIf(run) + es) == StoredIn(es) && EscapedIn(RawIf(run) + es) == EscapedIn(es)
    ensures RawIn(RawIf(run) + es) == run + RawIn(es) && (NoEmptyRaw(es) ==> NoEmptyRaw(RawIf(run) + es))
  {
    if run == "" {
      assert RawIf(run) + es == es && run + RawIn(es) == RawIn(es);
    } else {
      StoredMore(Raw(run), es);
      EscapedMore(Raw(run), es);
      RawMore(Raw(run), es);
    }
  }

  /** The token of a placeholder in front of some tokens. */
  lemma BehindRef(ref: string, p: Pieces, es: seq<Encoded>, table: seq<Hidden>)
    requires ValidRef(ref, |table|)
    requires Selects(StoredIn(es), Indices(p), table) && Selects(EscapedIn(es), EscapeIndices(p), ESCAPABLE)
    ensures var all := EncodedOf(ref, table) + es;
      && Selects(StoredIn(all), Indices(Item(ref, p)), table)
      && Selects(EscapedIn(all), EscapeIndices(Item(ref, p)), ESCAPABLE)
      && RawIn(all) == RawIn(es) && (NoEmptyRaw(es) ==> NoEmptyRaw(all))
  {
    if ref == "" {
      assert EncodedOf(ref, table) + es == es;
    } else {
      var e := EncodedOf(ref, table)[0];
      assert EncodedOf(ref, table) == [e];
      StoredMore(e, es);
      EscapedMore(e, es);
      RawMore(e, es);
      if ref[0] == '#' {
        SelectsMore(e.c, Read(ref[1..], 10), EscapedIn(es), EscapeIndices(p), ESCAPABLE);
      } else {
        SelectsMore(e.h, Read(ref, 10), StoredIn(es), Indices(p), table);
      }
    }
  }

  /** The stored tokens are the table entries whose indices the placeholders of a text carry, the escaped
      ones the characters of its escape indices, each in their order, and the raw ones are not empty and
      joined are `text`. */
  predicate MadeOf(es: seq<Encoded>, p: Pieces, text: string, table: seq<Hidden>) {
    && Selects(StoredIn(es), Indices(p), table) && Selects(EscapedIn(es), EscapeIndices(p), ESCAPABLE)
    && RawIn(es) == text && NoEmptyRaw(es)
  }

  lemma RefMade(ref: string, p: Pieces, es: seq<Encoded>, text: string, table: seq<Hidden>)
    requires ValidRef(ref, |table|) && MadeOf(es, p, text, table)
    ensures MadeOf(EncodedOf(ref, table) + es, Item(ref, p), text, table)
  {
    BehindRef(ref, p, es, table);
  }

  lemma RawMade(run: string, p: Pieces, es: seq<Encoded>, text: string, table: seq<Hidden>)
    requires MadeOf(es, p, text, table)
    ensures MadeOf(RawIf(run) + es, p, run + text, table)
  {
    BehindRaw(run, es);
  }

  lemma EndMade(run: string, table: seq<Hidden>)
    ensures MadeOf(RawIf(run), End, run, table)
  {
    BehindRaw(run, []);
    assert RawIf(run) + [] == RawIf(run) && run + "" == run;
  }

  /** What the tokens of a text are, item by item. */
  lemma {:induction false} EncodedParts(run: string, p: Pieces, table: seq<Hidden>)
    requires RefsOk(p, |table|)
    ensures MadeOf(EncodePieces(run, p, table), p, run + Between(p), table)
    decreases p
  {
    match p
    case End =>
      EndMade(run, table);
      assert run + "" == run;
    case Letter(c, rest) =>
      EncodedParts(run + [c], rest, table);
      HeadMoves(run, c, Between(rest));
    case Item(ref, rest) =>
      EncodedParts("", rest, table);
      var es, item := EncodePieces("", rest, table), EncodedOf(ref, table);
      assert "" + Between(rest) == Between(rest);
      RefMade(ref, rest, es, Between(rest), table);
      RawMade(run, p, item + es, Between(rest), table);
      assert RawIf(run) + item + es == RawIf(run) + (item + es);
  }

  lemma {:induction false} SearchEncodes(run: string, s: string, table: seq<Hidden>)
    requires RefsOk(Cut(s), |table|)
    ensures match Search(s)
            case NoHit => EncodePieces(run, Cut(s), table) == RawIf(run + s)
            case Hit(pre, ref, rest) =>
              && ValidRef(ref, |table|) && RefsOk(Cut(rest), |table|)
              && EncodePieces(run, Cut(s), table) ==
                 RawIf(run + pre) + EncodedOf(ref, table) + EncodePieces("", Cut(rest), table)
    decreases |s|
  {
    if s == "" {
      assert run + s == run;
    } else if MatchAt(s).None? {
      SearchEncodes(run + [s[0]], s[1..], table);
      HeadMoves(run, s[0], s[1..]);
      assert [s[0]] + s[1..] == s;
      if Search(s[1..]).Hit? {
        HeadMoves(run, s[0], Search(s[1..]).pre);
      }
    } else {
      assert run + "" == run;
    }
  }

  method EncodeRaw(text: string) returns (es: seq<Encoded>)
    ensures es == RawIf(text)
  {
    es := [];
    if text != "" {
      es := [Raw(text)];
    }
  }

  method EncodeRef(ref: string, table: seq<Hidden>) returns (es: seq<Encoded>)
    requires ValidRef(ref, |table|)
    ensures es == EncodedOf(ref, table)
  {
    es := [];
    if ref != "" && ref[0] == '#' {
      es := [Escaped(ESCAPABLE[Read(ref[1..], 10)])];
    } else if ref != "" {
      assert Read(ref, 10) < |table|;
      es := [Stored(table[Read(ref, 10)])];
    }
  }

  lemma EncodedRegroup(a: seq<Encoded>, b: seq<Encoded>, c: seq<Encoded>, d: seq<Encoded>)
    ensures a + (b + c + d) == a + b + c + d
  {
  }

  /** _encodeProcessedItems. */
  method EncodeProcessedItems(src: string, table: seq<Hidden>) returns (r: seq<Encoded>)
    requires RefsOk(Cut(src), |table|)
    ensures r == EncodePieces("", Cut(src), table)
    ensures Sources(r) == Restore(src, table)
    ensures MadeOf(r, Cut(src), Between(Cut(src)), table)
  {
    r := [];
    var rest := src;
    ghost var goal := EncodePieces("", Cut(src), table);
    EncodeAgreesWithRestore("", Cut(src), table);
    EncodedParts("", Cut(src), table);
    assert MadeOf(goal, Cut(src), Between(Cut(src)), table) by {
      assert "" + Between(Cut(src)) == Between(Cut(src));
    }
    while true
      invariant RefsOk(Cut(rest), |table|)
      invariant r + EncodePieces("", Cut(rest), table) == goal
      decreases |rest|
    {
      SearchEncodes("", rest, table);
      match Search(rest) {
        case Hit(pre, ref, after) =>
          var raw := EncodeRaw(pre);
          var stored := EncodeRef(ref, table);
          assert "" + pre == pre;
          EncodedRegroup(r, raw, stored, EncodePieces("", Cut(after), table));
          r, rest := r + raw + stored, after;
        case NoHit =>
          var raw := EncodeRaw(rest);
          assert "" + rest == rest;
          r := r + raw;
          return;
      }
    }
  }
}
