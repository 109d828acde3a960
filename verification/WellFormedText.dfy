/** Texts whose control characters all belong to complete placeholders with existing items: the
    form in which a text is handed from one markdown pass to the next. */
module WellFormedText {
  import opened Wrappers
  import opened Numerals
  import opened Placeholders

  /** A text built from plain characters and placeholders. */
  datatype Segs = Done | Chr(c: char, rest: Segs) | Ph(ref: string, name: string, rest: Segs)

  predicate NameChar(c: char) {
    'a' <= c <= 'z' || 'A' <= c <= 'Z' || '0' <= c <= '9' || c == '&'
  }

  predicate NameOk(name: string) {
    name != "" && forall i :: 0 <= i < |name| ==> NameChar(name[i])
  }

  /** A character that never occurs inside a placeholder, so that a text can be cut there. */
  predicate Breaks(c: char) {
    c != MARK && c != '@' && c != '#' && !NameChar(c)
  }

  function Flat(p: Segs): string {
    match p
    case Done => ""
    case Chr(c, rest) => [c] + Flat(rest)
    case Ph(ref, name, rest) => Placeholder(ref, name) + Flat(rest)
  }

  predicate SegsOk(p: Segs, n: nat) {
    match p
    case Done => true
    case Chr(c, rest) => c != MARK && SegsOk(rest, n)
    case Ph(ref, name, rest) => IsRef(ref) && ValidRef(ref, n) && NameOk(name) && SegsOk(rest, n)
  }

  function Shape(p: Segs): Pieces {
    match p
    case Done => End
    case Chr(c, rest) => Letter(c, Shape(rest))
    case Ph(ref, _, rest) => Item(ref, Shape(rest))
  }

  // ---------------------------------------------------------------- placeholders are read back

  lemma {:induction false} DigitRunIs(ref: string, rest: string)
    requires AllDigits(ref, 10) && rest != "" && !IsDigit(rest[0], 10)
    ensures DigitRun(ref + rest) == |ref|
    decreases |ref|
  {
    if ref == "" {
      assert ref + rest == rest;
    } else {
      assert (ref + rest)[1..] == ref[1..] + rest;
      DigitRunIs(ref[1..], rest);
    }
  }

  lemma RefLengthIs(ref: string, rest: string)
    requires IsRef(ref) && rest != "" && rest[0] == '@'
    ensures RefLength(ref + rest) == |ref|
  {
    if ref != "" && ref[0] == '#' {
      assert (ref + rest)[1..] == ref[1..] + rest;
      DigitRunIs(ref[1..], rest);
    } else {
      DigitRunIs(ref, rest);
      assert (ref + rest)[0] == if ref == "" then '@' else ref[0];
    }
  }

  lemma {:induction false} IndexOfMark(name: string, rest: string)
    requires forall i :: 0 <= i < |name| ==> name[i] != MARK
    ensures IndexOf(name + ([MARK] + rest), MARK) == |name|
    decreases |name|
  {
    var s := name + ([MARK] + rest);
    if name == "" {
      assert s[0] == MARK;
    } else {
      assert s[1..] == name[1..] + ([MARK] + rest);
      IndexOfMark(name[1..], rest);
    }
  }

  lemma PlaceholderParts(ref: string, name: string, rest: string)
    requires name != ""
    ensures var s := Placeholder(ref, name) + rest;
      && |s| >= |ref| + |name| + 4 && s[0] == MARK && s[1] == '@' && s[|ref| + 2] == '@'
      && s[2..] == ref + (['@'] + name + [MARK] + rest)
      && s[2..|ref| + 2] == ref
      && s[|ref| + 4..] == name[1..] + ([MARK] + rest)
      && s[|ref| + |name| + 4..] == rest
  {
  }

  lemma ReadsBack(ref: string, name: string, rest: string)
    requires IsRef(ref) && NameOk(name)
    ensures MatchAt(Placeholder(ref, name) + rest) == Some(Match(ref, |ref| + |name| + 4))
    ensures (Placeholder(ref, name) + rest)[|ref| + |name| + 4..] == rest
  {
    PlaceholderParts(ref, name, rest);
    RefLengthIs(ref, ['@'] + name + [MARK] + rest);
    IndexOfMark(name[1..], rest);
  }

  lemma PlainIsLetter(c: char, s: string)
    requires c != MARK
    ensures Cut([c] + s) == Letter(c, Cut(s))
  {
    assert ([c] + s)[1..] == s;
    assert MatchAt([c] + s) == None;
  }

  lemma PlaceholderIsItem(ref: string, name: string, s: string)
    requires IsRef(ref) && NameOk(name)
    ensures Cut(Placeholder(ref, name) + s) == Item(ref, Cut(s))
  {
    ReadsBack(ref, name, s);
  }

  /** Cutting a built text finds exactly the placeholders it was built from. */
  lemma {:induction false} CutFlat(p: Segs, n: nat)
    requires SegsOk(p, n)
    ensures Cut(Flat(p)) == Shape(p) && RefsOk(Shape(p), n)
    decreases p
  {
    match p
    case Done =>
    case Chr(c, rest) =>
      CutFlat(rest, n);
      PlainIsLetter(c, Flat(rest));
    case Ph(ref, name, rest) =>
      CutFlat(rest, n);
      PlaceholderIsItem(ref, name, Flat(rest));
  }

  // ---------------------------------------------------------------- well-formed texts

  /** Every mark belongs to a placeholder, and every placeholder to an item of a table of size n. */
  ghost predicate WellFormed(s: string, n: nat) {
    exists p :: SegsOk(p, n) && Flat(p) == s
  }

  ghost function SegsOf(s: string, n: nat): (p: Segs)
    requires WellFormed(s, n)
    ensures SegsOk(p, n) && Flat(p) == s
  {
    var p :| SegsOk(p, n) && Flat(p) == s; p
  }

  /** The index assertions hold for every well-formed text. */
  lemma WellFormedRefsOk(s: string, n: nat)
    requires WellFormed(s, n)
    ensures RefsOk(Cut(s), n)
  {
    CutFlat(SegsOf(s, n), n);
  }

  function Join(p: Segs, q: Segs): Segs {
    match p
    case Done => q
    case Chr(c, rest) => Chr(c, Join(rest, q))
    case Ph(ref, name, rest) => Ph(ref, name, Join(rest, q))
  }

  function JoinPieces(p: Pieces, q: Pieces): Pieces {
    match p
    case End => q
    case Letter(c, rest) => Letter(c, JoinPieces(rest, q))
    case Item(ref, rest) => Item(ref, JoinPieces(rest, q))
  }

  lemma {:induction false} JoinIs(p: Segs, q: Segs, n: nat)
    requires SegsOk(p, n) && SegsOk(q, n)
    ensures SegsOk(Join(p, q), n) && Flat(Join(p, q)) == Flat(p) + Flat(q)
    ensures Shape(Join(p, q)) == JoinPieces(Shape(p), Shape(q))
    decreases p
  {
    match p
    case Done => assert "" + Flat(q) == Flat(q);
    case Chr(c, rest) =>
      JoinIs(rest, q, n);
      assert [c] + (Flat(rest) + Flat(q)) == [c] + Flat(rest) + Flat(q);
    case Ph(ref, name, rest) =>
      JoinIs(rest, q, n);
      assert Placeholder(ref, name) + (Flat(rest) + Flat(q)) == Placeholder(ref, name) + Flat(rest) + Flat(q);
  }

  lemma {:induction false} RestoredJoin(p: Pieces, q: Pieces, table: seq<Hidden>)
    requires RefsOk(p, |table|) && RefsOk(q, |table|)
    ensures RefsOk(JoinPieces(p, q), |table|)
    ensures Restored(JoinPieces(p, q), table) == Restored(p, table) + Restored(q, table)
    decreases p
  {
    match p
    case End => assert "" + Restored(q, table) == Restored(q, table);
    case Letter(c, rest) =>
      RestoredJoin(rest, q, table);
      assert [c] + (Restored(rest, table) + Restored(q, table)) == [c] + Restored(rest, table) + Restored(q, table);
    case Item(ref, rest) =>
      RestoredJoin(rest, q, table);
      var o := OriginalOf(ref, table);
      assert o + (Restored(rest, table) + Restored(q, table)) == o + Restored(rest, table) + Restored(q, table);
  }

  /** Restoring distributes over well-formed texts. */
  lemma Append(a: string, b: string, table: seq<Hidden>)
    requires WellFormed(a, |table|) && WellFormed(b, |table|)
    ensures WellFormed(a + b, |table|)
    ensures RefsOk(Cut(a), |table|) && RefsOk(Cut(b), |table|) && RefsOk(Cut(a + b), |table|)
    ensures Restore(a + b, table) == Restore(a, table) + Restore(b, table)
  {
    var n := |table|;
    var p, q := SegsOf(a, n), SegsOf(b, n);
    JoinIs(p, q, n);
    CutFlat(p, n);
    CutFlat(q, n);
    CutFlat(Join(p, q), n);
    RestoredJoin(Shape(p), Shape(q), table);
  }

  /** Text without marks is well-formed and restores to itself. */
  lemma {:induction false} PlainText(s: string, table: seq<Hidden>)
    requires MARK !in s
    ensures WellFormed(s, |table|) && RefsOk(Cut(s), |table|) && Restore(s, table) == s
    decreases |s|
  {
    if s == "" {
      assert Flat(Done) == s;
    } else {
      PlainText(s[1..], table);
      var p := SegsOf(s[1..], |table|);
      assert Flat(Chr(s[0], p)) == s;
      assert s == [s[0]] + s[1..];
      PlainIsLetter(s[0], s[1..]);
    }
  }

  lemma NoTail(s: string)
    ensures s + "" == s
  {
  }

  lemma RestoredItem(ref: string, table: seq<Hidden>)
    requires ValidRef(ref, |table|)
    ensures RefsOk(Item(ref, End), |table|) && Restored(Item(ref, End), table) == OriginalOf(ref, table)
  {
    NoTail(OriginalOf(ref, table));
    assert Restored(End, table) == "";
  }

  lemma RestoreFlat(p: Segs, table: seq<Hidden>)
    requires SegsOk(p, |table|)
    ensures WellFormed(Flat(p), |table|) && RefsOk(Cut(Flat(p)), |table|)
    ensures RefsOk(Shape(p), |table|) && Restore(Flat(p), table) == Restored(Shape(p), table)
  {
    CutFlat(p, |table|);
  }

  lemma SinglePlaceholder(ref: string, name: string, table: seq<Hidden>)
    requires IsRef(ref) && ValidRef(ref, |table|) && NameOk(name)
    ensures var s := Placeholder(ref, name);
      WellFormed(s, |table|) && RefsOk(Cut(s), |table|) && Restore(s, table) == OriginalOf(ref, table)
  {
    var p := Ph(ref, name, Done);
    NoTail(Placeholder(ref, name));
    RestoreFlat(p, table);
    RestoredItem(ref, table);
  }

  // ---------------------------------------------------------------- growing the table

  lemma {:induction false} SegsGrow(p: Segs, n: nat, n': nat)
    requires SegsOk(p, n) && n <= n'
    ensures SegsOk(p, n')
    decreases p
  {
    match p
    case Done =>
    case Chr(_, rest) => SegsGrow(rest, n, n');
    case Ph(_, _, rest) => SegsGrow(rest, n, n');
  }

  lemma {:induction false} RestoredGrows(p: Pieces, table: seq<Hidden>, table': seq<Hidden>)
    requires RefsOk(p, |table|) && table <= table'
    ensures RefsOk(p, |table'|) && Restored(p, table') == Restored(p, table)
    decreases p
  {
    match p
    case End =>
    case Letter(_, rest) => RestoredGrows(rest, table, table');
    case Item(_, rest) => RestoredGrows(rest, table, table');
  }

  lemma StaysWellFormed(s: string, n: nat, n': nat)
    requires WellFormed(s, n) && n <= n'
    ensures WellFormed(s, n')
  {
    SegsGrow(SegsOf(s, n), n, n');
  }

  /** New table entries do not change what a text restores to. */
  lemma Grows(s: string, table: seq<Hidden>, table': seq<Hidden>)
    requires WellFormed(s, |table|) && table <= table'
    ensures WellFormed(s, |table'|)
    ensures RefsOk(Cut(s), |table|) && RefsOk(Cut(s), |table'|) && Restore(s, table') == Restore(s, table)
  {
    var p := SegsOf(s, |table|);
    SegsGrow(p, |table|, |table'|);
    CutFlat(p, |table|);
    RestoredGrows(Shape(p), table, table');
  }

  // ---------------------------------------------------------------- cutting

  lemma PlaceholderHasNoBreak(ref: string, name: string, i: nat)
    requires IsRef(ref) && NameOk(name) && i < |Placeholder(ref, name)|
    ensures !Breaks(Placeholder(ref, name)[i])
  {
    var k := |ref|;
    var s := Placeholder(ref, name);
    if 2 <= i < k + 2 {
      assert s[i] == ref[i - 2];
      assert ref[i - 2] == '#' || IsDigit(ref[i - 2], 10) by {
        if ref[0] == '#' && i > 2 { assert ref[1..][i - 3] == ref[i - 2]; }
      }
    } else if k + 3 <= i < |s| - 1 {
      assert s[i] == name[i - k - 3];
    }
  }

  lemma ConsCut(d: char, r: string, a: string, c: char, b: string)
    requires [d] + r == a + ([c] + b)
    ensures a == "" ==> r == b
    ensures a != "" ==> a == [d] + a[1..] && r == a[1..] + ([c] + b)
  {
    assert ([d] + r)[1..] == r;
    if a == "" {
      assert (a + ([c] + b))[1..] == b;
    } else {
      assert (a + ([c] + b))[0] == a[0] && (a + ([c] + b))[1..] == a[1..] + ([c] + b);
    }
  }

  lemma BlockCut(h: string, r: string, a: string, c: char, b: string)
    requires h + r == a + ([c] + b)
    ensures |a| < |h| ==> h[|a|] == c
    ensures |a| >= |h| ==> a == h + a[|h|..] && r == a[|h|..] + ([c] + b)
  {
    if |a| < |h| {
      assert (h + r)[|a|] == h[|a|] && (a + ([c] + b))[|a|] == c;
    } else {
      assert (h + r)[..|h|] == h && (a + ([c] + b))[..|h|] == a[..|h|];
      assert (h + r)[|h|..] == r && (a + ([c] + b))[|h|..] == a[|h|..] + ([c] + b);
    }
  }

  lemma {:induction false} CutSegs(p: Segs, n: nat, a: string, c: char, b: string)
    requires SegsOk(p, n) && Flat(p) == a + ([c] + b) && Breaks(c)
    ensures WellFormed(a, n) && WellFormed(b, n)
    decreases p
  {
    match p
    case Done =>
    case Chr(d, rest) =>
      ConsCut(d, Flat(rest), a, c, b);
      if a == "" {
        assert Flat(Done) == a;
      } else {
        CutSegs(rest, n, a[1..], c, b);
        assert Flat(Chr(d, SegsOf(a[1..], n))) == a;
      }
    case Ph(ref, name, rest) =>
      var h := Placeholder(ref, name);
      BlockCut(h, Flat(rest), a, c, b);
      if |a| < |h| {
        PlaceholderHasNoBreak(ref, name, |a|);
      } else {
        CutSegs(rest, n, a[|h|..], c, b);
        assert Flat(Ph(ref, name, SegsOf(a[|h|..], n))) == a;
      }
  }

  /** A well-formed text may be cut at any character that cannot be part of a placeholder. */
  lemma CutAt(a: string, c: char, b: string, table: seq<Hidden>)
    requires WellFormed(a + ([c] + b), |table|) && Breaks(c)
    ensures WellFormed(a, |table|) && WellFormed(b, |table|)
    ensures RefsOk(Cut(a), |table|) && RefsOk(Cut(b), |table|) && RefsOk(Cut(a + ([c] + b)), |table|)
    ensures Restore(a + ([c] + b), table) == Restore(a, table) + ([c] + Restore(b, table))
  {
    CutSegs(SegsOf(a + ([c] + b), |table|), |table|, a, c, b);
    PlainText([c], table);
    Append([c], b, table);
    Append(a, [c] + b, table);
  }
}
