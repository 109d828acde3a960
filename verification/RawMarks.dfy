/** When marks survive all passes. Links and tags that turn out to be neither are put into the table as
    they stand, placeholders and all, and nothing ever looks for placeholders in a table entry. */
module RawMarks {
  import opened Numerals
  import opened Placeholders
  import opened WellFormedText
  import opened Hiding
  import opened CodeSpans
  import opened Encoders
  import opened TagsAndLinks

  /** No entry of the table is written with a mark. */
  predicate Clean(table: seq<Hidden>) {
    forall i :: 0 <= i < |table| ==> MARK !in Original(table[i])
  }

  /** What the match stores as it stands holds a mark: the whole match, or the alternative text, the
      address or the title. An e-mail address is stored character by character, without marks. */
  predicate Taints(link: Link, whole: string) {
    match link
    case AsIs => MARK in whole
    case Image(alt, url, title) => MARK in alt || MARK in url || MARK in title
    case Anchor(_, url, title) => MARK in url || MARK in title
    case AutoLink(contents, email) => !email && MARK in contents
    case _ => false
  }

  /** Some match that the link pass comes to is written with a mark. */
  predicate Tainted(find: string -> LinkHit, s: string)
    requires FindsLinks(find)
    decreases |s|
  {
    var h := find(s);
    h.LinkHit? && (Taints(h.link, h.whole) || Tainted(find, Onwards(h)))
  }

  // ---------------------------------------------------------------- clean tables

  lemma OriginalOfClean(ref: string, table: seq<Hidden>)
    requires ValidRef(ref, |table|) && Clean(table)
    ensures MARK !in OriginalOf(ref, table)
  {
    assert MARK !in ESCAPABLE;
  }

  lemma {:induction false} RestoredClean(p: Segs, table: seq<Hidden>)
    requires SegsOk(p, |table|) && Clean(table)
    ensures RefsOk(Shape(p), |table|) && MARK !in Restored(Shape(p), table)
    decreases p
  {
    match p
    case Done =>
    case Chr(c, rest) => RestoredClean(rest, table);
    case Ph(ref, name, rest) =>
      RestoredClean(rest, table);
      OriginalOfClean(ref, table);
  }

  /** A well-formed text restores without marks under a clean table. */
  lemma RestoreClean(s: string, table: seq<Hidden>)
    requires WellFormed(s, |table|) && Clean(table)
    ensures RefsOk(Cut(s), |table|) && MARK !in Restore(s, table)
  {
    var p := SegsOf(s, |table|);
    RestoreFlat(p, table);
    RestoredClean(p, table);
  }

  lemma EncodedFirstMarks(s: string, f: Flags)
    requires s != ""
    ensures MARK in EncodeFirst(s, f) <==> s[0] == MARK
  {
  }

  /** Encoding neither adds nor removes marks. */
  lemma {:induction false} EncodedMarks(s: string, f: Flags)
    ensures MARK in Encode(s, f) <==> MARK in s
    decreases |s|
  {
    if s != "" {
      EncodedMarks(s[1..], f);
      EncodedFirstMarks(s, f);
      assert s == [s[0]] + s[1..];
    }
  }

  lemma CleanMore(table: seq<Hidden>, h: Hidden)
    requires Clean(table) && MARK !in Original(h)
    ensures Clean(table + [h])
  {
  }

  lemma SpanClean(text: string)
    requires MARK !in text
    ensures MARK !in Original(CodeSpan(text))
  {
  }

  lemma {:induction false} AttributesClean(attribute: string -> Piece, tag: string, table: seq<Hidden>)
    requires FindsPieces(attribute) && MARK !in tag && Clean(table)
    ensures Clean(HideAttributes(attribute, tag, table).items)
    decreases |tag|
  {
    match attribute(tag)
    case NoPiece =>
    case Piece(pre, body, rest) =>
      assert tag == pre + (body + rest);
      EncodedMarks(body, ATTRIBUTE);
      CleanMore(table, Markup(Encode(body, ATTRIBUTE)));
      AttributesClean(attribute, rest, table + [Markup(Encode(body, ATTRIBUTE))]);
  }

  lemma {:induction false} TagsClean(tag: string -> Piece, known: string -> bool, attribute: string -> Piece,
      s: string, table: seq<Hidden>)
    requires FindsPieces(tag) && FindsPieces(attribute) && MARK !in s && Clean(table)
    ensures Clean(HideTags(tag, known, attribute, s, table).items)
    decreases |s|
  {
    match tag(s)
    case NoPiece =>
    case Piece(pre, body, rest) =>
      assert s == pre + (body + rest);
      AttributesClean(attribute, body, table);
      var inside := if known(body) then HideAttributes(attribute, body, table) else Hidings(body, table);
      TagsClean(tag, known, attribute, rest, inside.items);
  }

  lemma {:induction false} SpansClean(find: string -> Span, q: Quotes, s: string, table: seq<Hidden>)
    requires Finds(find, q) && WellFormed(s, |table|) && Clean(table)
    ensures Clean(HideSpans(find, q, s, table).items)
    decreases |s|
  {
    match find(s)
    case NoSpan =>
    case Span(pre, inner, rest) =>
      SpanParts(q, find(s), table);
      RestoreClean(inner, table);
      var h := CodeSpan(Restore(inner, table));
      SpanClean(h.text);
      CleanMore(table, h);
      Grows(rest, table, table + [h]);
      SpansClean(find, q, rest, table + [h]);
  }

  lemma BeforeLinksClean(m: Matchers, s: string)
    requires m.Valid() && MARK !in s
    ensures Clean(HideBeforeLinks(m, s).items)
  {
    TagsOk(m.tag, m.known, m.attribute, s, []);
    TagsClean(m.tag, m.known, m.attribute, s, []);
    var a := HideTags(m.tag, m.known, m.attribute, s, []);
    SpansRestore(m.double, Double, a.text, a.items);
    SpansClean(m.double, Double, a.text, a.items);
    var first := HideSpans(m.double, Double, a.text, a.items);
    SpansClean(m.single, Single, first.text, first.items);
  }

  // ---------------------------------------------------------------- marks that survive

  /** An opening bracket is no mark. */
  lemma FirstClean(whole: string, table: seq<Hidden>)
    requires whole != "" && StartsLink(whole[0])
    ensures MARK !in Original(EntryOf(Unresolved, whole, table))
  {
    EncodedMarks(whole[..1], TEXT);
  }

  lemma WholeMarks(whole: string, table: seq<Hidden>)
    requires whole != ""
    ensures MARK in Original(EntryOf(AsIs, whole, table)) <==> MARK in whole
  {
    EncodedMarks(whole, TEXT);
  }

  lemma BracketsClean(text: string)
    ensures MARK in "<" + text + ">" <==> MARK in text
  {
  }

  lemma TagClean(contents: string, whole: string, table: seq<Hidden>)
    requires whole != "" && RefsOk(Cut(contents), |table|) && MARK !in Restore(contents, table)
    ensures MARK !in Original(EntryOf(Tag(contents), whole, table))
  {
    var text := Encode(Restore(contents, table), Flags(true, false, true, false));
    EncodedMarks(Restore(contents, table), Flags(true, false, true, false));
    BracketsClean(text);
  }

  lemma ClosingClean()
    ensures MARK !in Original(CLOSE_ANCHOR)
  {
  }

  lemma JoinMarks(a: string, b: string)
    ensures MARK in a + b <==> MARK in a || MARK in b
  {
  }

  lemma JoinMarks3(a: string, b: string, c: string)
    ensures MARK in a + b + c <==> MARK in a || MARK in b || MARK in c
  {
  }

  /** An optional title. */
  lemma TitleMarks(title: string)
    ensures MARK in (if title == "" then "" else " title=\"" + title + "\"") <==> MARK in title
  {
    if title != "" {
      JoinMarks3(" title=\"", title, "\"");
    }
  }

  lemma ImageMarks(alt: string, url: string, title: string)
    ensures MARK in ImageHtml(alt, url, title) <==> MARK in alt || MARK in url || MARK in title
  {
    var t := if title == "" then "" else " title=\"" + title + "\"";
    TitleMarks(title);
    JoinMarks3("<img src=\"", url, "\" alt=\"");
    JoinMarks3("<img src=\"" + url + "\" alt=\"", alt, "\"");
    JoinMarks3("<img src=\"" + url + "\" alt=\"" + alt + "\"", t, "/>");
  }

  lemma AnchorMarks(url: string, title: string)
    ensures MARK in AnchorHtml(url, title) <==> MARK in url || MARK in title
  {
    var u, e := Encode(url, ADDRESS), Encode(title, ADDRESS);
    var t := if title == "" then "" else " title=\"" + e + "\"";
    EncodedMarks(url, ADDRESS);
    EncodedMarks(title, ADDRESS);
    JoinMarks3(" title=\"", e, "\"");
    JoinMarks3("<a href=\"", u, "\"");
    JoinMarks3("<a href=\"" + u + "\"", t, ">");
  }

  lemma DigitsUnmarked(n: nat, base: Base)
    ensures MARK !in Print(n, base)
  {
    assert AllDigits(Print(n, base), base);
  }

  lemma EmailFirstUnmarked(c: char, inHex: bool)
    ensures MARK !in EmailFirst(c, inHex)
  {
    DigitsUnmarked(c as int, 16);
    DigitsUnmarked(c as int, 10);
  }

  /** An encoded e-mail address holds no marks. */
  lemma {:induction false} EmailUnmarked(s: string, inHex: bool)
    ensures MARK !in EmailEncode(s, inHex)
    decreases |s|
  {
    if s != "" {
      EmailFirstUnmarked(s[0], inHex);
      EmailUnmarked(s[1..], !inHex);
      JoinMarks(EmailFirst(s[0], inHex), EmailEncode(s[1..], !inHex));
    }
  }

  lemma AutoLinkMarks(contents: string, email: bool)
    ensures MARK in AutoLinkHtml(contents, email) <==> !email && MARK in contents
  {
    var address := if email then EmailEncode("mailto:" + contents, false) else contents;
    var text := if email then EmailEncode(contents, false) else contents;
    EmailUnmarked("mailto:" + contents, false);
    EmailUnmarked(contents, false);
    AnchorMarks(address, "");
    EncodedMarks(text, TEXT);
    JoinMarks3(AnchorHtml(address, ""), Encode(text, TEXT), "</a>");
  }

  lemma ImageEntry(alt: string, url: string, title: string, whole: string, table: seq<Hidden>)
    requires whole != ""
    ensures MARK in Original(EntryOf(Image(alt, url, title), whole, table)) <==>
              MARK in alt || MARK in url || MARK in title
  {
    ImageMarks(alt, url, title);
  }

  lemma AnchorEntry(contents: string, url: string, title: string, whole: string, table: seq<Hidden>)
    requires whole != ""
    ensures MARK in Original(EntryOf(Anchor(contents, url, title), whole, table)) <==> MARK in url || MARK in title
  {
    AnchorMarks(url, title);
  }

  lemma AutoLinkEntry(contents: string, email: bool, whole: string, table: seq<Hidden>)
    requires whole != ""
    ensures MARK in Original(EntryOf(AutoLink(contents, email), whole, table)) <==> !email && MARK in contents
  {
    AutoLinkMarks(contents, email);
  }

  /** The entry of a match is written with a mark exactly if the match taints. */
  lemma EntryMarks(link: Link, whole: string, table: seq<Hidden>)
    requires whole != "" && StartsLink(whole[0])
    requires link.Tag? ==> RefsOk(Cut(link.contents), |table|) && MARK !in Restore(link.contents, table)
    ensures MARK in Original(EntryOf(link, whole, table)) <==> Taints(link, whole)
  {
    match link
    case Unresolved => FirstClean(whole, table);
    case AsIs => WholeMarks(whole, table);
    case Tag(contents) => TagClean(contents, whole, table);
    case Image(alt, url, title) => ImageEntry(alt, url, title, whole, table);
    case Anchor(contents, url, title) => AnchorEntry(contents, url, title, whole, table);
    case AutoLink(contents, email) => AutoLinkEntry(contents, email, whole, table);
  }

  lemma HitMarks(h: LinkHit, table: seq<Hidden>)
    requires h.LinkHit? && h.whole != "" && StartsLink(h.whole[0]) && Clean(table) && WellFormed(h.pre, |table|)
    requires h.link.Anchor? || h.link.Tag? ==> WellFormed(h.link.contents, |table|)
    ensures RefsOk(Cut(h.pre), |table|)
    ensures h.link.Anchor? || h.link.Tag? ==> RefsOk(Cut(h.link.contents), |table|)
    ensures MARK in HitShown(h, table) <==> Taints(h.link, h.whole)
  {
    RestoreClean(h.pre, table);
    if h.link.Tag? {
      RestoreClean(h.link.contents, table);
    }
    EntryMarks(h.link, h.whole, table);
    var before, entry := Restore(h.pre, table), Original(EntryOf(h.link, h.whole, table));
    JoinMarks(before, entry);
    if h.link.Anchor? {
      RestoreClean(h.link.contents, table);
      ClosingClean();
      JoinMarks(Restore(h.link.contents, table), Original(CLOSE_ANCHOR));
      JoinMarks(before + entry, Restore(h.link.contents, table) + Original(CLOSE_ANCHOR));
    }
  }

  lemma {:induction false} ShownMarks(find: string -> LinkHit, s: string, table: seq<Hidden>)
    requires FindsLinks(find) && WellFormed(s, |table|) && Clean(table)
    ensures MARK in LinksShown(find, s, table) <==> Tainted(find, s)
    decreases |s|
  {
    RestoreClean(s, table);
    var h := find(s);
    if h.LinkHit? {
      NextReady(find, s, table);
      HitMarks(h, table);
      ShownMarks(find, Onwards(h), table);
    }
  }

  /** A mark is left in the restored text if and only if some match of the link pass is left as it stands with a
      placeholder in it, or is looked up with one: a text without marks of its own comes out without
      marks in all other cases. */
  lemma MarksSurvive(m: Matchers, s: string)
    requires m.Valid() && MARK !in s
    ensures var r := HideAll(m, s);
      && RefsOk(Cut(r.text), |r.items|)
      && (MARK in Restore(r.text, r.items) <==> Tainted(m.link, HideBeforeLinks(m, s).text))
  {
    ItemsAlwaysExist(m, s);
    BeforeLinksClean(m, s);
    ShownMarks(m.link, HideBeforeLinks(m, s).text, HideBeforeLinks(m, s).items);
  }

  /** An escape becomes a placeholder, which begins with a mark. */
  lemma EscapeHidden(a: string, c: char, b: string, s: string)
    requires '\\' !in a && '\\' !in b && c in ESCAPABLE && s == a + (['\\'] + ([c] + b))
    ensures HideEscapes(s) == a + (EscapedItem(EscapeIndex(c)) + b) && MARK in EscapedItem(EscapeIndex(c))
  {
    EscapesSkip(a, ['\\'] + ([c] + b));
    EscapesSkip(b, "");
    NoTail(b);
    EscapeTwo('\\', c, b);
    assert EscapedItem(EscapeIndex(c))[0] == MARK;
  }

  /** A matcher that leaves texts in angle brackets as they stand, where no text is a known tag. */
  function LeaveAngles(): string -> LinkHit {
    t => if |t| >= 2 && t[0] == '<' && t[|t| - 1] == '>' then LinkHit("", t, "", AsIs) else NoLink
  }

  function NoPieces(): string -> Piece {
    t => NoPiece
  }

  function NoSpans(): string -> Span {
    t => NoSpan
  }

  function OnlyAngles(): Matchers {
    Matchers(NoPieces(), t => false, NoPieces(), NoSpans(), NoSpans(), LeaveAngles())
  }

  lemma OnlyAnglesValid()
    ensures OnlyAngles().Valid()
  {
    forall s | LeaveAngles()(s).LinkHit? ensures s == "" + (s + "") {
    }
  }

  lemma MarkedAngle(t: string)
    requires FindsLinks(LeaveAngles()) && |t| >= 2 && t[0] == '<' && t[|t| - 1] == '>' && MARK in t
    ensures Tainted(LeaveAngles(), t)
  {
  }

  lemma AngleTaints(a: string, item: string, b: string)
    requires a != "" && a[0] == '<' && b != "" && b[|b| - 1] == '>' && MARK in item
    ensures FindsLinks(LeaveAngles()) && Tainted(LeaveAngles(), a + (item + b))
  {
    OnlyAnglesValid();
    var t := a + (item + b);
    JoinMarks(item, b);
    JoinMarks(a, item + b);
    MarkedAngle(t);
  }

  /** Such a text with an escape in it leaves a mark. */
  lemma AngleLeavesMark(a: string, c: char, b: string, s: string)
    requires MARK !in s && s == a + (['\\'] + ([c] + b)) && '\\' !in a && '\\' !in b && c in ESCAPABLE
    requires a != "" && a[0] == '<' && b != "" && b[|b| - 1] == '>'
    ensures OnlyAngles().Valid()
    ensures var r := HideAll(OnlyAngles(), s); RefsOk(Cut(r.text), |r.items|) && MARK in Restore(r.text, r.items)
  {
    OnlyAnglesValid();
    MarksSurvive(OnlyAngles(), s);
    EscapeHidden(a, c, b, s);
    var item := EscapedItem(EscapeIndex(c));
    var hidden := a + (item + b);
    assert HideBeforeLinks(OnlyAngles(), s).text == hidden;
    AngleTaints(a, item, b);
  }

  lemma RawMarkExample()
    ensures OnlyAngles().Valid() && MARK !in "<foo\\*>"
    ensures var r := HideAll(OnlyAngles(), "<foo\\*>");
            RefsOk(Cut(r.text), |r.items|) && MARK in Restore(r.text, r.items)
  {
    var s := "<foo\\*>";
    assert s == "<foo" + (['\\'] + (['*'] + ">"));
    assert '*' in ESCAPABLE;
    AngleLeavesMark("<foo", '*', ">", s);
  }
}
