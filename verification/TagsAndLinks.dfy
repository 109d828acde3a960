/** Hiding HTML tag attributes, links, images and tags (_processHtmlTagAttributes and
    _processLinksImagesAndTags), and the whole chain of passes: no placeholder ever refers to an
    item that does not exist. */
module TagsAndLinks {
  import opened Wrappers
  import opened Placeholders
  import opened WellFormedText
  import opened Hiding
  import opened CodeSpans
  import opened Encoders

  // ---------------------------------------------------------------- tag attributes

  /** The encoding flags of a hidden attribute string. */
  const ATTRIBUTE := Flags(true, false, true, false)

  /** A match in the text still to be searched: the text before it, the match, the text behind. */
  datatype Piece = NoPiece | Piece(pre: string, body: string, rest: string)

  ghost predicate FindsPieces(find: string -> Piece) {
    forall s :: find(s).Piece? ==> find(s).body != "" && s == find(s).pre + (find(s).body + find(s).rest)
  }

  /** Hides the attribute strings of one tag. */
  function HideAttributes(attribute: string -> Piece, tag: string, table: seq<Hidden>): Hidings
    requires FindsPieces(attribute)
    decreases |tag|
  {
    match attribute(tag)
    case NoPiece => Hidings(tag, table)
    case Piece(pre, body, rest) =>
      var after := HideAttributes(attribute, rest, table + [Markup(Encode(body, ATTRIBUTE))]);
      Hidings(pre + NextItem(|table|, "htmlTagAttr") + after.text, after.items)
  }

  /** Hides the attribute strings of every tag whose name is a known one. */
  function HideTags(tag: string -> Piece, known: string -> bool, attribute: string -> Piece, s: string,
      table: seq<Hidden>): Hidings
    requires FindsPieces(tag) && FindsPieces(attribute)
    decreases |s|
  {
    match tag(s)
    case NoPiece => Hidings(s, table)
    case Piece(pre, body, rest) =>
      var inside := if known(body) then HideAttributes(attribute, body, table) else Hidings(body, table);
      var after := HideTags(tag, known, attribute, rest, inside.items);
      Hidings(pre + inside.text + after.text, after.items)
  }

  /** The inner loop of _processHtmlTagAttributes. */
  method ProcessAttributes(fulltag: string, attribute: string -> Piece, replacements: ReplacementTable)
    returns (tgttag: string)
    requires FindsPieces(attribute)
    modifies replacements
    ensures Hidings(tgttag, replacements.items) == old(HideAttributes(attribute, fulltag, replacements.items))
  {
    tgttag := "";
    var rest := fulltag;
    ghost var goal := HideAttributes(attribute, fulltag, replacements.items);
    while true
      invariant tgttag + HideAttributes(attribute, rest, replacements.items).text == goal.text
      invariant HideAttributes(attribute, rest, replacements.items).items == goal.items
      decreases |rest|
    {
      match attribute(rest) {
        case Piece(pre, body, after) =>
          var item := NextItem(|replacements.items|, "htmlTagAttr");
          var html := EncodeString(body, ATTRIBUTE);
          replacements.PushBack(Markup(html));
          Assoc(tgttag, pre, item, HideAttributes(attribute, after, replacements.items).text);
          tgttag, rest := tgttag + pre + item, after;
        case NoPiece =>
          tgttag := tgttag + rest;
          return;
      }
    }
  }

  /** _processHtmlTagAttributes. */
  method ProcessHtmlTagAttributes(src: string,
                                  tag: string -> Piece, known: string -> bool, attribute: string -> Piece,
                                  replacements: ReplacementTable)
    returns (tgt: string)
    requires FindsPieces(tag) && FindsPieces(attribute)
    modifies replacements
    ensures Hidings(tgt, replacements.items) == old(HideTags(tag, known, attribute, src, replacements.items))
  {
    tgt := "";
    var rest := src;
    ghost var goal := HideTags(tag, known, attribute, src, replacements.items);
    while true
      invariant tgt + HideTags(tag, known, attribute, rest, replacements.items).text == goal.text
      invariant HideTags(tag, known, attribute, rest, replacements.items).items == goal.items
      decreases |rest|
    {
      match tag(rest) {
        case Piece(pre, body, after) =>
          var inside := body;
          if known(body) {
            inside := ProcessAttributes(body, attribute, replacements);
          }
          Assoc(tgt, pre, inside, HideTags(tag, known, attribute, after, replacements.items).text);
          tgt, rest := tgt + pre + inside, after;
        case NoPiece =>
          tgt := tgt + rest;
          return;
      }
    }
  }

  /** A pass keeps the table entries, leaves a well-formed text, and the text restores to `shown`. */
  ghost predicate Shows(table: seq<Hidden>, r: Hidings, shown: string) {
    table <= r.items && WellFormed(r.text, |r.items|) && RefsOk(Cut(r.text), |r.items|) &&
        Restore(r.text, r.items) == shown
  }

  /** The placeholder `item` stands for the entry that the table gets next. */
  ghost predicate Stands(item: string, h: Hidden, table: seq<Hidden>) {
    var table' := table + [h];
    WellFormed(item, |table'|) && RefsOk(Cut(item), |table'|) && Restore(item, table') == Original(h)
  }

  lemma PrefixShrinks(a: seq<Hidden>, h: Hidden, b: seq<Hidden>)
    requires a + [h] <= b
    ensures a <= b
  {
    assert (a + [h])[..|a|] == a;
  }

  /** An older well-formed text, a placeholder of the next item, and what the pass goes on to. */
  lemma HiddenPart(pre: string, item: string, h: Hidden, after: Hidings, shown: string, table: seq<Hidden>)
    requires WellFormed(pre, |table|) && Stands(item, h, table) && Shows(table + [h], after, shown)
    ensures RefsOk(Cut(pre), |table|)
    ensures Shows(table, Hidings(pre + item + after.text, after.items), Restore(pre, table) + Original(h) + shown)
  {
    PrefixShrinks(table, h, after.items);
    Grows(pre, table, after.items);
    Grows(item, table + [h], after.items);
    Append(pre, item, after.items);
    Append(pre + item, after.text, after.items);
  }

  /** An older well-formed text and what the pass goes on to. */
  lemma KeptPart(pre: string, after: Hidings, shown: string, table: seq<Hidden>)
    requires WellFormed(pre, |table|) && Shows(table, after, shown)
    ensures RefsOk(Cut(pre), |table|)
    ensures Shows(table, Hidings(pre + after.text, after.items), Restore(pre, table) + shown)
  {
    Grows(pre, table, after.items);
    Append(pre, after.text, after.items);
  }

  lemma PlainShows(s: string, table: seq<Hidden>)
    requires MARK !in s
    ensures Shows(table, Hidings(s, table), s)
  {
    PlainText(s, table);
  }

  /** A tag with its attribute strings encoded in place. */
  function AttributesShown(attribute: string -> Piece, tag: string): string
    requires FindsPieces(attribute)
    decreases |tag|
  {
    match attribute(tag)
    case NoPiece => tag
    case Piece(pre, body, rest) => pre + Encode(body, ATTRIBUTE) + AttributesShown(attribute, rest)
  }

  /** A text with the attribute strings of its known tags encoded in place. */
  function TagsShown(tag: string -> Piece, known: string -> bool, attribute: string -> Piece, s: string): string
    requires FindsPieces(tag) && FindsPieces(attribute)
    decreases |s|
  {
    match tag(s)
    case NoPiece => s
    case Piece(pre, body, rest) =>
      pre + ((if known(body) then AttributesShown(attribute, body) else body) + TagsShown(tag, known, attribute, rest))
  }

  lemma {:induction false} AttributesOk(attribute: string -> Piece, tag: string, table: seq<Hidden>)
    requires FindsPieces(attribute) && MARK !in tag
    ensures Shows(table, HideAttributes(attribute, tag, table), AttributesShown(attribute, tag))
    decreases |tag|
  {
    match attribute(tag)
    case NoPiece => PlainShows(tag, table);
    case Piece(pre, body, rest) =>
      var h := Markup(Encode(body, ATTRIBUTE));
      AttributesOk(attribute, rest, table + [h]);
      PlainText(pre, table);
      NextItemOk(h, "htmlTagAttr", table);
      HiddenPart(pre, NextItem(|table|, "htmlTagAttr"), h, HideAttributes(attribute, rest, table + [h]),
          AttributesShown(attribute, rest), table);
  }

  /** Two stretches of a pass, one behind the other. */
  lemma BothParts(a: Hidings, b: Hidings, shownA: string, shownB: string, table: seq<Hidden>)
    requires Shows(table, a, shownA) && Shows(a.items, b, shownB)
    ensures Shows(table, Hidings(a.text + b.text, b.items), shownA + shownB)
  {
    Grows(a.text, a.items, b.items);
    Append(a.text, b.text, b.items);
  }

  /** The attribute pass turns plain text into a well-formed text in which every placeholder stands
      for its own attribute string: it restores to the text with the attributes encoded in place. */
  lemma {:induction false} TagsOk(tag: string -> Piece, known: string -> bool, attribute: string -> Piece,
      s: string, table: seq<Hidden>)
    requires FindsPieces(tag) && FindsPieces(attribute) && MARK !in s
    ensures Shows(table, HideTags(tag, known, attribute, s, table), TagsShown(tag, known, attribute, s))
    decreases |s|
  {
    match tag(s)
    case NoPiece => PlainShows(s, table);
    case Piece(pre, body, rest) =>
      AttributesOk(attribute, body, table);
      PlainShows(body, table);
      PlainText(pre, table);
      var inside := if known(body) then HideAttributes(attribute, body, table) else Hidings(body, table);
      var shown := if known(body) then AttributesShown(attribute, body) else body;
      TagsOk(tag, known, attribute, rest, inside.items);
      var after, shownAfter := HideTags(tag, known, attribute, rest, inside.items),
          TagsShown(tag, known, attribute, rest);
      BothParts(inside, after, shown, shownAfter, table);
      KeptPart(pre, Hidings(inside.text + after.text, after.items), shown + shownAfter, table);
      Grouped(pre, inside.text, after.text);
  }

  // ---------------------------------------------------------------- links, images and tags

  /** What a match of the link expression turns out to be. Addresses and titles come from the match or
      from the document's table of references. */
  datatype Link =
    | Unresolved                               // "[" or "!" stays as it is, and the search goes on behind it
    | Image(alt: string, url: string, title: string)
    | Anchor(contents: string, url: string, title: string)   // the contents stay, between two placeholders
    | AutoLink(contents: string, email: bool)
    | Tag(contents: string)
    | AsIs
  {
    /** What stands between brackets in the match. */
    function Inner(): Option<string> {
      match this
      case Image(alt, _, _) => Some(alt)
      case Anchor(contents, _, _) => Some(contents)
      case AutoLink(contents, _) => Some(contents)
      case Tag(contents) => Some(contents)
      case _ => None
    }
  }

  datatype LinkHit = NoLink | LinkHit(pre: string, whole: string, rest: string, link: Link)

  predicate StartsLink(c: char) {
    c == '[' || c == '!' || c == '<'
  }

  predicate EndsLink(c: char) {
    c == ']' || c == ')' || c == '>'
  }

  /** `inner` stands in `whole` behind a breaking character and in front of one. */
  ghost predicate Bracketed(whole: string, inner: string) {
    exists a: string, o: char, c: char, b: string :: Breaks(o) && Breaks(c) && whole == a + ([o] + (inner + ([c] + b)))
  }

  /** The shape of the matches: brackets on both sides, and contents between brackets. */
  ghost predicate FindsLinks(find: string -> LinkHit) {
    forall s :: find(s).LinkHit? ==>
      var h := find(s);
      && |h.whole| >= 2 && s == h.pre + (h.whole + h.rest)
      && StartsLink(h.whole[0]) && EndsLink(h.whole[|h.whole| - 1])
      && (h.link.Inner().Some? ==> Bracketed(h.whole, h.link.Inner().value))
  }

  lemma LinkRegroup(first: char, body: string, last: char, rest: string)
    ensures [first] + (body + [last]) + rest == [first] + (body + ([last] + rest))
    ensures ([first] + (body + [last]))[1..] + rest == body + ([last] + rest)
  {
    assert ([first] + (body + [last]))[1..] == body + [last];
  }

  /** A match may be cut out, and so may its contents and its first character. */
  lemma LinkParts(h: LinkHit, table: seq<Hidden>)
    requires h.LinkHit? && |h.whole| >= 2
    requires StartsLink(h.whole[0]) && EndsLink(h.whole[|h.whole| - 1])
    requires WellFormed(h.pre + (h.whole + h.rest), |table|)
    ensures WellFormed(h.pre, |table|) && WellFormed(h.rest, |table|)
    ensures WellFormed(h.whole, |table|) && WellFormed(h.whole[1..] + h.rest, |table|)
  {
    var first, last := h.whole[0], h.whole[|h.whole| - 1];
    var body := h.whole[1..|h.whole| - 1];
    assert h.whole == [first] + (body + [last]);
    LinkRegroup(first, body, last, h.rest);
    CutAt(h.pre, first, body + ([last] + h.rest), table);
    CutAt(body, last, h.rest, table);
    PlainText([first], table);
    PlainText([last], table);
    Append(body, [last], table);
    Append([first], body + [last], table);
  }

  lemma BracketedOk(whole: string, inner: string, table: seq<Hidden>)
    requires WellFormed(whole, |table|) && Bracketed(whole, inner)
    ensures WellFormed(inner, |table|) && RefsOk(Cut(inner), |table|)
  {
    var a: string, o: char, c: char, b: string :| Breaks(o) && Breaks(c) && whole == a + ([o] + (inner + ([c] + b)));
    CutAt(a, o, inner + ([c] + b), table);
    CutAt(inner, c, b, table);
  }

  /** The encoding flags of a link's address and title. */
  const ADDRESS := Flags(true, false, false, true)

  /** Image::writeAsHtml, which encodes nothing. */
  function ImageHtml(alt: string, url: string, title: string): string {
    "<img src=\"" + url + "\" alt=\"" + alt + "\"" + (if title == "" then "" else " title=\"" + title + "\"") + "/>"
  }

  /** What an HtmlAnchorTag holds. */
  function AnchorHtml(url: string, title: string): string {
    "<a href=\"" + Encode(url, ADDRESS) + "\""
    + (if title == "" then "" else " title=\"" + Encode(title, ADDRESS) + "\"") + ">"
  }

  /** A link on an address that stands in the text, with the address as its text. */
  function AutoLinkHtml(contents: string, email: bool): string {
    if email then
      AnchorHtml(EmailEncode("mailto:" + contents, false), "") + Encode(EmailEncode(contents, false), TEXT) + "</a>"
    else
      AnchorHtml(contents, "") + Encode(contents, TEXT) + "</a>"
  }

  /** The table entry of a match. */
  function EntryOf(link: Link, whole: string, table: seq<Hidden>): Hidden
    requires whole != ""
    requires link.Tag? ==> RefsOk(Cut(link.contents), |table|)
  {
    match link
    case Unresolved => Markup(Encode(whole[..1], TEXT))
    case Image(alt, url, title) => Markup(ImageHtml(alt, url, title))
    case Anchor(_, url, title) => Markup(AnchorHtml(url, title))
    case AutoLink(contents, email) => Markup(AutoLinkHtml(contents, email))
    case Tag(contents) => Markup("<" + Encode(Restore(contents, table), Flags(true, false, true, false)) + ">")
    case AsIs => Markup(Encode(whole, TEXT))
  }

  const CLOSE_ANCHOR := Markup("</a>")

  /** Where the search goes on. */
  function Onwards(h: LinkHit): string
    requires h.LinkHit? && h.whole != ""
  {
    if h.link.Unresolved? then h.whole[1..] + h.rest else h.rest
  }

  /** The table with the entries of a match. */
  function Grown(h: LinkHit, table: seq<Hidden>): (r: seq<Hidden>)
    requires h.LinkHit? && h.whole != ""
    requires h.link.Tag? ==> RefsOk(Cut(h.link.contents), |table|)
    ensures table <= r && |r| == |table| + (if h.link.Anchor? then 2 else 1)
  {
    var entry := EntryOf(h.link, h.whole, table);
    if h.link.Anchor? then table + [entry] + [CLOSE_ANCHOR] else table + [entry]
  }

  /** The text before a match and its placeholders, in front of what the pass makes of the rest. */
  function Spliced(h: LinkHit, after: Hidings, table: seq<Hidden>): Hidings
    requires h.LinkHit?
  {
    var item := NextItem(|table|, "links&Images1");
    if h.link.Anchor? then
      Hidings(h.pre + item + (h.link.contents + NextItem(|table| + 1, "links&Images2") + after.text), after.items)
    else
      Hidings(h.pre + item + after.text, after.items)
  }

  /** All that a match needs: its parts are well-formed, with the entries it adds and without. */
  lemma LinkReady(h: LinkHit, table: seq<Hidden>)
    requires h.LinkHit? && |h.whole| >= 2
    requires StartsLink(h.whole[0]) && EndsLink(h.whole[|h.whole| - 1])
    requires (h.link.Anchor? || h.link.Tag?) ==> Bracketed(h.whole, h.link.contents)
    requires WellFormed(h.pre + (h.whole + h.rest), |table|)
    ensures WellFormed(h.pre, |table|) && WellFormed(Onwards(h), |table|)
    ensures (h.link.Anchor? || h.link.Tag?) ==>
              WellFormed(h.link.contents, |table|) && RefsOk(Cut(h.link.contents), |table|)
    ensures WellFormed(Onwards(h), |Grown(h, table)|)
  {
    LinkParts(h, table);
    if h.link.Anchor? || h.link.Tag? {
      BracketedOk(h.whole, h.link.contents, table);
    }
    StaysWellFormed(Onwards(h), |table|, |Grown(h, table)|);
  }

  /** The next match of a well-formed text, and that the search goes on with less. */
  lemma NextReady(find: string -> LinkHit, s: string, table: seq<Hidden>)
    requires FindsLinks(find) && WellFormed(s, |table|) && find(s).LinkHit?
    ensures var h := find(s);
      && h.whole != "" && |Onwards(h)| < |s|
      && WellFormed(h.pre, |table|) && RefsOk(Cut(h.pre), |table|) && WellFormed(Onwards(h), |table|)
      && ((h.link.Anchor? || h.link.Tag?) ==>
         WellFormed(h.link.contents, |table|) && RefsOk(Cut(h.link.contents), |table|))
      && WellFormed(Onwards(h), |Grown(h, table)|)
  {
    LinkReady(find(s), table);
    WellFormedRefsOk(find(s).pre, |table|);
  }

  /** _processLinksImagesAndTags on the text from its iterator on. */
  function HideLinks(find: string -> LinkHit, s: string, table: seq<Hidden>): Hidings
    requires FindsLinks(find) && WellFormed(s, |table|)
    decreases |s|
  {
    var h := find(s);
    if h.NoLink? then Hidings(s, table)
    else
      NextReady(find, s, table);
      Spliced(h, HideLinks(find, Onwards(h), Grown(h, table)), table)
  }

  /** What a match becomes, with the text before it. */
  function HitShown(h: LinkHit, table: seq<Hidden>): string
    requires h.LinkHit? && h.whole != "" && RefsOk(Cut(h.pre), |table|)
    requires h.link.Anchor? || h.link.Tag? ==> RefsOk(Cut(h.link.contents), |table|)
  {
    var before := Restore(h.pre, table) + Original(EntryOf(h.link, h.whole, table));
    if h.link.Anchor? then before + (Restore(h.link.contents, table) + Original(CLOSE_ANCHOR)) else before
  }

  /** What a text says once every match has become its markup: an independent reading of the pass,
      under the table that it starts with. */
  function LinksShown(find: string -> LinkHit, s: string, table: seq<Hidden>): string
    requires FindsLinks(find) && WellFormed(s, |table|)
    decreases |s|
  {
    WellFormedRefsOk(s, |table|);
    var h := find(s);
    if h.NoLink? then Restore(s, table)
    else
      NextReady(find, s, table);
      HitShown(h, table) + LinksShown(find, Onwards(h), table)
  }

  lemma AnchorShows(pre: string, item: string, h: Hidden, contents: string, item2: string, h2: Hidden,
                    after: Hidings, shown: string, table: seq<Hidden>)
    requires WellFormed(pre, |table|) && WellFormed(contents, |table|) && Shows(table + [h] + [h2], after, shown)
    requires Stands(item, h, table) && Stands(item2, h2, table + [h])
    ensures RefsOk(Cut(pre), |table|) && RefsOk(Cut(contents), |table|)
    ensures Shows(table, Hidings(pre + item + (contents + item2 + after.text), after.items),
                  Restore(pre, table) + Original(h) + (Restore(contents, table) + Original(h2)) + shown)
  {
    var inner := Hidings(contents + item2 + after.text, after.items);
    Grows(contents, table, table + [h]);
    HiddenPart(contents, item2, h2, after, shown, table + [h]);
    HiddenPart(pre, item, h, inner, Restore(contents, table) + Original(h2) + shown, table);
    Grouped(Restore(pre, table) + Original(h), Restore(contents, table) + Original(h2), shown);
  }

  lemma EntryGrows(link: Link, whole: string, table: seq<Hidden>, table': seq<Hidden>)
    requires whole != "" && table <= table' && (link.Tag? ==> WellFormed(link.contents, |table|))
    ensures link.Tag? ==> RefsOk(Cut(link.contents), |table|) && RefsOk(Cut(link.contents), |table'|)
    ensures EntryOf(link, whole, table') == EntryOf(link, whole, table)
  {
    if link.Tag? {
      Grows(link.contents, table, table');
    }
  }

  lemma HitGrows(h: LinkHit, table: seq<Hidden>, table': seq<Hidden>)
    requires h.LinkHit? && h.whole != "" && table <= table' && WellFormed(h.pre, |table|)
    requires h.link.Anchor? || h.link.Tag? ==> WellFormed(h.link.contents, |table|)
    ensures RefsOk(Cut(h.pre), |table|) && RefsOk(Cut(h.pre), |table'|)
    ensures h.link.Anchor? || h.link.Tag? ==>
              RefsOk(Cut(h.link.contents), |table|) && RefsOk(Cut(h.link.contents), |table'|)
    ensures HitShown(h, table') == HitShown(h, table)
  {
    Grows(h.pre, table, table');
    EntryGrows(h.link, h.whole, table, table');
    if h.link.Anchor? {
      Grows(h.link.contents, table, table');
    }
  }

  /** New table entries change nothing in what a text shows. */
  lemma {:induction false} ShownGrows(find: string -> LinkHit, s: string, table: seq<Hidden>, table': seq<Hidden>)
    requires FindsLinks(find) && WellFormed(s, |table|) && table <= table'
    ensures WellFormed(s, |table'|) && LinksShown(find, s, table') == LinksShown(find, s, table)
    decreases |s|
  {
    Grows(s, table, table');
    var h := find(s);
    if h.LinkHit? {
      NextReady(find, s, table);
      HitGrows(h, table, table');
      ShownGrows(find, Onwards(h), table, table');
    }
  }

  lemma LinkNames()
    ensures NameOk("links&Images1") && NameOk("links&Images2")
  {
  }

  lemma ItemStands(h: Hidden, name: string, table: seq<Hidden>)
    requires NameOk(name)
    ensures Stands(NextItem(|table|, name), h, table)
  {
    NextItemOk(h, name, table);
  }

  /** The placeholders of links stand for the entries that the table gets next. */
  lemma LinkItemsStand(h: Hidden, table: seq<Hidden>)
    ensures Stands(NextItem(|table|, "links&Images1"), h, table) && Stands(NextItem(|table|, "links&Images2"), h, table)
  {
    LinkNames();
    ItemStands(h, "links&Images1", table);
    ItemStands(h, "links&Images2", table);
  }

  lemma AnchorOk(h: LinkHit, after: Hidings, shown: string, table: seq<Hidden>)
    requires h.LinkHit? && h.link.Anchor? && h.whole != ""
    requires WellFormed(h.pre, |table|) && WellFormed(h.link.contents, |table|)
    requires Shows(Grown(h, table), after, shown)
    ensures RefsOk(Cut(h.pre), |table|) && RefsOk(Cut(h.link.contents), |table|)
    ensures Shows(table, Spliced(h, after, table), HitShown(h, table) + shown)
  {
    var entry := EntryOf(h.link, h.whole, table);
    var item, item2 := NextItem(|table|, "links&Images1"), NextItem(|table| + 1, "links&Images2");
    LinkItemsStand(entry, table);
    LinkItemsStand(CLOSE_ANCHOR, table + [entry]);
    AnchorShows(h.pre, item, entry, h.link.contents, item2, CLOSE_ANCHOR, after, shown, table);
  }

  lemma ItemOk(h: LinkHit, after: Hidings, shown: string, table: seq<Hidden>)
    requires h.LinkHit? && !h.link.Anchor? && h.whole != "" && WellFormed(h.pre, |table|)
    requires h.link.Tag? ==> RefsOk(Cut(h.link.contents), |table|)
    requires Shows(Grown(h, table), after, shown)
    ensures RefsOk(Cut(h.pre), |table|)
    ensures Shows(table, Spliced(h, after, table), HitShown(h, table) + shown)
  {
    var entry, item := EntryOf(h.link, h.whole, table), NextItem(|table|, "links&Images1");
    LinkItemsStand(entry, table);
    HiddenPart(h.pre, item, entry, after, shown, table);
  }

  /** The link pass, with its splitting of links in two and its second look behind an unresolved
      bracket, keeps every placeholder within the table and makes each stand for its own match. */
  lemma {:induction false} LinksOk(find: string -> LinkHit, s: string, table: seq<Hidden>)
    requires FindsLinks(find) && WellFormed(s, |table|)
    ensures Shows(table, HideLinks(find, s, table), LinksShown(find, s, table))
    decreases |s|
  {
    WellFormedRefsOk(s, |table|);
    var h := find(s);
    if h.LinkHit? {
      NextReady(find, s, table);
      LinksOk(find, Onwards(h), Grown(h, table));
      ShownGrows(find, Onwards(h), table, Grown(h, table));
      if h.link.Anchor? {
        AnchorOk(h, HideLinks(find, Onwards(h), Grown(h, table)), LinksShown(find, Onwards(h), table), table);
      } else {
        ItemOk(h, HideLinks(find, Onwards(h), Grown(h, table)), LinksShown(find, Onwards(h), table), table);
      }
    }
  }

  lemma AnchorRegroup(tgt: string, pre: string, item: string, contents: string, item2: string, todo: string)
    ensures tgt + (pre + item + (contents + item2 + todo)) == tgt + pre + item + contents + item2 + todo
  {
  }

  /** _processLinksImagesAndTags. */
  method ProcessLinksImagesAndTags(src: string, find: string -> LinkHit, replacements: ReplacementTable)
    returns (tgt: string)
    requires FindsLinks(find) && WellFormed(src, |replacements.items|)
    modifies replacements
    ensures Hidings(tgt, replacements.items) == old(HideLinks(find, src, replacements.items))
  {
    tgt := "";
    var rest := src;
    ghost var goal := HideLinks(find, src, replacements.items);
    while true
      invariant WellFormed(rest, |replacements.items|)
      invariant tgt + HideLinks(find, rest, replacements.items).text == goal.text
      invariant HideLinks(find, rest, replacements.items).items == goal.items
      decreases |rest|
    {
      match find(rest) {
        case LinkHit(pre, whole, after, link) =>
          NextReady(find, rest, replacements.items);
          var item := NextItem(|replacements.items|, "links&Images1");
          replacements.PushBack(EntryOf(link, whole, replacements.items));
          if link.Anchor? {
            var item2 := NextItem(|replacements.items|, "links&Images2");
            replacements.PushBack(CLOSE_ANCHOR);
            ghost var todo := HideLinks(find, after, replacements.items).text;
            AnchorRegroup(tgt, pre, item, link.contents, item2, todo);
            tgt, rest := tgt + pre + item + link.contents + item2, after;
          } else {
            rest := if link.Unresolved? then whole[1..] + after else after;
            Assoc(tgt, pre, item, HideLinks(find, rest, replacements.items).text);
            tgt := tgt + pre + item;
          }
        case NoLink =>
          tgt := tgt + rest;
          return;
      }
    }
  }

  // ---------------------------------------------------------------- all passes

  /** The expressions of the passes. */
  datatype Matchers = Matchers(tag: string -> Piece, known: string -> bool, attribute: string -> Piece,
                               double: string -> Span, single: string -> Span, link: string -> LinkHit)
  {
    ghost predicate Valid() {
      FindsPieces(tag) && FindsPieces(attribute) && Finds(double, Double) && Finds(single, Single) && FindsLinks(link)
    }
  }

  /** The text and the table in front of the link pass. */
  function HideBeforeLinks(m: Matchers, s: string): Hidings
    requires m.Valid() && MARK !in s
  {
    TagsOk(m.tag, m.known, m.attribute, s, []);
    var a := HideTags(m.tag, m.known, m.attribute, s, []);
    var b := HideCode(m.double, m.single, a.text, a.items);
    Hidings(HideEscapes(b.text), b.items)
  }

  /** In front of the link pass the text restores to the source text with its attributes encoded in
      place, if and only if there was no double-backtick span. */
  lemma HiddenBeforeLinks(m: Matchers, s: string)
    requires m.Valid() && MARK !in s
    ensures var r := HideBeforeLinks(m, s);
      && WellFormed(r.text, |r.items|) && RefsOk(Cut(r.text), |r.items|)
      && (Restore(r.text, r.items) == TagsShown(m.tag, m.known, m.attribute, s)
          <==> m.double(HideTags(m.tag, m.known, m.attribute, s, []).text).NoSpan?)
  {
    TagsOk(m.tag, m.known, m.attribute, s, []);
    var a := HideTags(m.tag, m.known, m.attribute, s, []);
    DoubleSpansAreLost(m.double, a.text, a.items);
    var first := HideSpans(m.double, Double, a.text, a.items);
    SingleSpansAreInvisible(m.single, first.text, first.items);
    var b := HideCode(m.double, m.single, a.text, a.items);
    EscapesAreInvisible(b.text, b.items);
  }

  /** The text and the table that RawText::processSpanElements hands to the emphasis pass. */
  function HideAll(m: Matchers, s: string): Hidings
    requires m.Valid() && MARK !in s
  {
    HiddenBeforeLinks(m, s);
    HideLinks(m.link, HideBeforeLinks(m, s).text, HideBeforeLinks(m, s).items)
  }

  /** Whatever the source text and the matches, no pass and no reader ever meets a placeholder
      without its item, so the index assertions cannot fail; and every placeholder of the result
      stands for the very match that it was put in for. */
  lemma ItemsAlwaysExist(m: Matchers, s: string)
    requires m.Valid() && MARK !in s
    ensures var before, r := HideBeforeLinks(m, s), HideAll(m, s);
      && WellFormed(before.text, |before.items|)
      && WellFormed(r.text, |r.items|) && RefsOk(Cut(r.text), |r.items|)
      && Restore(r.text, r.items) == LinksShown(m.link, before.text, before.items)
  {
    HiddenBeforeLinks(m, s);
    LinksOk(m.link, HideBeforeLinks(m, s).text, HideBeforeLinks(m, s).items);
  }

  /** RawText::processSpanElements up to the emphasis pass. */
  method ProcessSpanElements(src: string, m: Matchers) returns (str: string, replacements: ReplacementTable)
    requires m.Valid() && MARK !in src
    ensures fresh(replacements) && Hidings(str, replacements.items) == HideAll(m, src)
    ensures RefsOk(Cut(str), |replacements.items|)
  {
    replacements := new ReplacementTable();
    ItemsAlwaysExist(m, src);
    TagsOk(m.tag, m.known, m.attribute, src, []);
    str := ProcessHtmlTagAttributes(src, m.tag, m.known, m.attribute, replacements);
    ghost var a := Hidings(str, replacements.items);
    SpansRestore(m.double, Double, a.text, a.items);
    ghost var first := HideSpans(m.double, Double, a.text, a.items);
    SpansRestore(m.single, Single, first.text, first.items);
    str := ProcessCodeSpans(str, m.double, m.single, replacements);
    EscapesAreInvisible(str, replacements.items);
    str := ProcessEscapedCharacters(str);
    str := ProcessLinksImagesAndTags(str, m.link, replacements);
  }
}
