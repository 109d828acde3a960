/** The passes that hide pieces of a markdown text behind placeholders: backslash escapes and code
    spans. A regular expression is a parameter here: a function from the text still to be searched
    to the next match, of which only the shape of its matches is known. */
module Hiding {
  import opened Numerals
  import opened Placeholders
  import opened WellFormedText

  /** RawText's ReplacementTable, to which the passes append. */
  class ReplacementTable {
    var items: seq<Hidden>

    constructor ()
      ensures items == []
    {
      items := [];
    }

    method PushBack(h: Hidden)
      modifies this
      ensures items == old(items) + [h]
    {
      items := items + [h];
    }
  }

  // ---------------------------------------------------------------- backslash escapes

  /** The placeholder of an escapable character. */
  function EscapedItem(index: nat): string {
    Placeholder("#" + Print(index, 10), "escaped")
  }

  /** The index of a character among the escapable ones, or their number. */
  function EscapeIndex(c: char): (k: nat)
    ensures k <= |ESCAPABLE| && (k < |ESCAPABLE| ==> ESCAPABLE[k] == c)
    ensures k < |ESCAPABLE| <==> c in ESCAPABLE
  {
    IndexOf(ESCAPABLE, c)
  }

  /** What _processEscapedCharacters makes of a text. */
  function HideEscapes(s: string): string
    decreases |s|
  {
    if s == "" then ""
    else if s[0] != '\\' then [s[0]] + HideEscapes(s[1..])
    else if |s| == 1 then ['\\']
    else if EscapeIndex(s[1]) < |ESCAPABLE| then EscapedItem(EscapeIndex(s[1])) + HideEscapes(s[2..])
    else ['\\', s[1]] + HideEscapes(s[2..])
  }

  lemma EscapeOne(c: char, rest: string)
    requires c != '\\'
    ensures HideEscapes([c] + rest) == [c] + HideEscapes(rest)
  {
    assert ([c] + rest)[1..] == rest;
  }

  lemma {:induction false} EscapesSkip(a: string, b: string)
    requires '\\' !in a
    ensures HideEscapes(a + b) == a + HideEscapes(b)
    decreases |a|
  {
    if a == "" {
      assert a + b == b && a + HideEscapes(b) == HideEscapes(b);
    } else {
      EscapesSkip(a[1..], b);
      EscapeOne(a[0], a[1..] + b);
      HeadOff(a, b);
      HeadOff(a, HideEscapes(b));
    }
  }

  /** No backslash stands in front of an escapable character. */
  predicate NoEscape(s: string) {
    forall i :: 0 <= i < |s| - 1 && s[i] == '\\' ==> s[i + 1] !in ESCAPABLE
  }

  lemma NoEscapeGlue(a: string, b: string)
    requires NoEscape(a) && NoEscape(b) && (a != "" ==> a[|a| - 1] != '\\')
    ensures NoEscape(a + b)
  {
    var s := a + b;
    forall i | 0 <= i < |s| - 1 && s[i] == '\\' ensures s[i + 1] !in ESCAPABLE {
      if i + 1 < |a| {
        assert s[i] == a[i] && s[i + 1] == a[i + 1];
      } else {
        assert i != |a| - 1;
        assert s[i] == b[i - |a|] && s[i + 1] == b[i + 1 - |a|];
      }
    }
  }

  lemma NoBackslashInside(ref: string, name: string)
    requires IsRef(ref) && NameOk(name)
    ensures '\\' !in Placeholder(ref, name) && '\\' !in Placeholder(ref, name)[1..]
  {
    forall i | 0 <= i < |Placeholder(ref, name)| ensures Placeholder(ref, name)[i] != '\\' {
      PlaceholderHasNoBreak(ref, name, i);
    }
  }

  lemma EscapedItemIsPlain(e: nat)
    ensures NoEscape(EscapedItem(e)) && EscapedItem(e) != "" && EscapedItem(e)[|EscapedItem(e)| - 1] != '\\'
  {
    var ref := "#" + Print(e, 10);
    assert IsRef(ref) by {
      assert ref[1..] == Print(e, 10);
    }
    NoBackslashInside(ref, "escaped");
    var s := EscapedItem(e);
    assert s[|s| - 1] in s;
  }

  /** Every escape is hidden. */
  lemma {:induction false} NoEscapeLeft(s: string)
    ensures NoEscape(HideEscapes(s))
    decreases |s|
  {
    if |s| > 1 && s[0] == '\\' {
      NoEscapeLeft(s[2..]);
      var e := EscapeIndex(s[1]);
      if e < |ESCAPABLE| {
        EscapedItemIsPlain(e);
        NoEscapeGlue(EscapedItem(e), HideEscapes(s[2..]));
      } else {
        assert s[1] !in ESCAPABLE && '\\' in ESCAPABLE;
        NoEscapeGlue(['\\', s[1]], HideEscapes(s[2..]));
      }
    } else if s != "" && s[0] != '\\' {
      NoEscapeLeft(s[1..]);
      NoEscapeGlue([s[0]], HideEscapes(s[1..]));
    }
  }

  /** Appends `piece`; `after` is what is still to come. */
  function Copied(tgt: string, piece: string, ghost after: string): (r: string)
    ensures r == tgt + piece && r + after == tgt + (piece + after)
  {
    tgt + piece
  }

  /** _processEscapedCharacters, `rest` being the text from the iterator `prev` on. */
  method ProcessEscapedCharacters(src: string) returns (tgt: string)
    ensures tgt == HideEscapes(src)
  {
    tgt := "";
    var rest := src;
    ghost var goal := HideEscapes(src);
    while true
      invariant tgt + HideEscapes(rest) == goal
      decreases |rest|
    {
      var i := IndexOf(rest, '\\');
      assert rest == rest[..i] + rest[i..];
      EscapesSkip(rest[..i], rest[i..]);
      tgt, rest := Copied(tgt, rest[..i], HideEscapes(rest[i..])), rest[i..];
      if rest == "" {
        return;
      }
      if |rest| == 1 {
        tgt := tgt + ['\\'];
        return;
      }
      var e := EscapeIndex(rest[1]);
      var piece := if e < |ESCAPABLE| then EscapedItem(e) else ['\\', rest[1]];
      tgt := Copied(tgt, piece, HideEscapes(rest[2..]));
      rest := rest[2..];
    }
  }

  /** The escape pass on built texts. */
  function EscapeSegs(p: Segs): Segs {
    match p
    case Done => Done
    case Ph(ref, name, rest) => Ph(ref, name, EscapeSegs(rest))
    case Chr(c, rest) =>
      if c != '\\' then Chr(c, EscapeSegs(rest))
      else
        match rest
        case Done => p
        case Ph(ref, name, rest') => Chr(c, Ph(ref, name, EscapeSegs(rest')))
        case Chr(e, rest') =>
          if EscapeIndex(e) < |ESCAPABLE| then Ph("#" + Print(EscapeIndex(e), 10), "escaped", EscapeSegs(rest'))
          else Chr(c, Chr(e, EscapeSegs(rest')))
  }

  lemma EscapeTwo(a: char, b: char, rest: string)
    requires a == '\\'
    ensures HideEscapes([a] + ([b] + rest)) ==
      if EscapeIndex(b) < |ESCAPABLE| then EscapedItem(EscapeIndex(b)) + HideEscapes(rest)
          else ['\\', b] + HideEscapes(rest)
  {
    var s := [a] + ([b] + rest);
    assert s[2..] == rest && s[1] == b;
  }

  lemma Shuffle(a: char, b: char, c: string, d: string)
    ensures [a] + ([b] + (c + d)) == [a] + (([b] + c) + d)
    ensures [a, b] + (c + d) == [a] + (([b] + c) + d)
  {
  }

  lemma MarkIsNotEscapable()
    ensures EscapeIndex(MARK) == |ESCAPABLE|
  {
    assert MARK !in ESCAPABLE;
  }

  lemma EscapeBeforePlaceholder(ref: string, name: string, rest: string)
    requires IsRef(ref) && NameOk(name)
    ensures HideEscapes(['\\'] + (Placeholder(ref, name) + rest)) ==
              ['\\'] + (Placeholder(ref, name) + HideEscapes(rest))
  {
    var h := Placeholder(ref, name);
    assert h == [MARK] + h[1..];
    MarkIsNotEscapable();
    NoBackslashInside(ref, name);
    EscapeTwo('\\', MARK, h[1..] + rest);
    EscapesSkip(h[1..], rest);
    Shuffle('\\', MARK, h[1..], rest);
    Shuffle('\\', MARK, h[1..], HideEscapes(rest));
  }

  lemma EscapeLast()
    ensures HideEscapes(['\\'] + "") == ['\\'] + ""
  {
    assert ['\\'] + "" == ['\\'];
  }

  /** A backslash and the character behind it. */
  lemma EscapePair(a: char, b: char, rest: Segs)
    requires a == '\\' && HideEscapes(Flat(rest)) == Flat(EscapeSegs(rest))
    ensures HideEscapes(Flat(Chr(a, Chr(b, rest)))) == Flat(EscapeSegs(Chr(a, Chr(b, rest))))
  {
    EscapeTwo(a, b, Flat(rest));
    Shuffle(a, b, "", Flat(EscapeSegs(rest)));
    assert "" + Flat(EscapeSegs(rest)) == Flat(EscapeSegs(rest));
    assert [b] + "" == [b];
  }

  lemma {:induction false} EscapeFlat(p: Segs, n: nat)
    requires SegsOk(p, n)
    ensures HideEscapes(Flat(p)) == Flat(EscapeSegs(p))
    decreases p
  {
    match p
    case Done =>
    case Ph(ref, name, rest) =>
      EscapeFlat(rest, n);
      NoBackslashInside(ref, name);
      EscapesSkip(Placeholder(ref, name), Flat(rest));
    case Chr(c, rest) =>
      if c != '\\' {
        EscapeFlat(rest, n);
        EscapeOne(c, Flat(rest));
      } else {
        match rest
        case Done => EscapeLast();
        case Ph(ref, name, rest') =>
          EscapeFlat(rest', n);
          EscapeBeforePlaceholder(ref, name, Flat(rest'));
        case Chr(e, rest') =>
          EscapeFlat(rest', n);
          EscapePair(c, e, rest');
      }
  }

  lemma EscapedRef(c: char, table: seq<Hidden>)
    requires EscapeIndex(c) < |ESCAPABLE|
    ensures var ref := "#" + Print(EscapeIndex(c), 10);
      IsRef(ref) && ValidRef(ref, |table|) && NameOk("escaped") && OriginalOf(ref, table) == ['\\', c]
  {
    var digits := Print(EscapeIndex(c), 10);
    var ref := "#" + digits;
    assert ref[1..] == digits;
    ReadPrint(EscapeIndex(c), 10);
  }

  lemma TwoLetters(a: char, b: char, p: Pieces, table: seq<Hidden>)
    requires RefsOk(p, |table|)
    ensures Restored(Letter(a, Letter(b, p)), table) == [a, b] + Restored(p, table)
  {
    var x := Restored(p, table);
    assert [a] + ([b] + x) == [a, b] + x;
  }

  lemma {:induction false} EscapeSegsRestore(p: Segs, table: seq<Hidden>)
    requires SegsOk(p, |table|)
    ensures SegsOk(EscapeSegs(p), |table|)
    ensures RefsOk(Shape(p), |table|) && RefsOk(Shape(EscapeSegs(p)), |table|)
    ensures Restored(Shape(EscapeSegs(p)), table) == Restored(Shape(p), table)
    decreases p
  {
    match p
    case Done =>
    case Ph(_, _, rest) => EscapeSegsRestore(rest, table);
    case Chr(c, rest) =>
      if c != '\\' {
        EscapeSegsRestore(rest, table);
      } else {
        match rest
        case Done =>
        case Ph(_, _, rest') => EscapeSegsRestore(rest', table);
        case Chr(e, rest') =>
          EscapeSegsRestore(rest', table);
          if EscapeIndex(e) < |ESCAPABLE| {
            EscapedRef(e, table);
            TwoLetters('\\', e, Shape(rest'), table);
          }
      }
  }

  /** Hiding escapes is invisible to restoring, and the text stays well-formed. */
  lemma EscapesAreInvisible(s: string, table: seq<Hidden>)
    requires WellFormed(s, |table|)
    ensures WellFormed(HideEscapes(s), |table|)
    ensures RefsOk(Cut(s), |table|) && RefsOk(Cut(HideEscapes(s)), |table|)
    ensures Restore(HideEscapes(s), table) == Restore(s, table)
  {
    var p := SegsOf(s, |table|);
    EscapeFlat(p, |table|);
    EscapeSegsRestore(p, table);
    RestoreFlat(p, table);
    RestoreFlat(EscapeSegs(p), table);
  }
}
