/** Hiding code spans (_processCodeSpans). Single-backtick spans come back exactly when the text is
    restored; double-backtick spans do not, because a code span always writes single backticks. */
module CodeSpans {
  import opened Numerals
  import opened Placeholders
  import opened WellFormedText
  import opened Hiding

  /** The two passes: ``  spans first, then ` spans. */
  datatype Quotes = Double | Single

  function Opening(q: Quotes): string {
    if q == Double then ['`', '`', ' '] else ['`']
  }

  function Closing(q: Quotes): string {
    if q == Double then [' ', '`', '`'] else ['`']
  }

  /** A match in the text still to be searched: the text before it, what is between the quotes, and
      the text behind it. */
  datatype Span = NoSpan | Span(pre: string, inner: string, rest: string)

  function Unquoted(q: Quotes, h: Span): string
    requires h.Span?
  {
    h.pre + (Opening(q) + (h.inner + (Closing(q) + h.rest)))
  }

  /** All that is known of the expression of a pass: its matches are quoted and not empty. */
  ghost predicate Finds(find: string -> Span, q: Quotes) {
    forall s :: find(s).Span? ==> find(s).inner != "" && s == Unquoted(q, find(s))
  }

  /** A text after a pass, with the replacement table. */
  datatype Hidings = Hidings(text: string, items: seq<Hidden>)

  /** The placeholder of the next table entry. */
  function NextItem(n: nat, name: string): string {
    Placeholder(Print(n, 10), name)
  }

  lemma NextItemOk(h: Hidden, name: string, table: seq<Hidden>)
    requires NameOk(name)
    ensures var s, table' := NextItem(|table|, name), table + [h];
      WellFormed(s, |table'|) && RefsOk(Cut(s), |table'|) && Restore(s, table') == Original(h)
  {
    var ref := Print(|table|, 10);
    ReadPrint(|table|, 10);
    assert IsDigit(ref[0], 10);
    SinglePlaceholder(ref, name, table + [h]);
  }

  lemma CutFirst(c: char, b: string, table: seq<Hidden>)
    requires WellFormed([c] + b, |table|) && Breaks(c)
    ensures WellFormed(b, |table|) && RefsOk(Cut(b), |table|) && RefsOk(Cut([c] + b), |table|)
    ensures Restore([c] + b, table) == [c] + Restore(b, table)
  {
    var s := [c] + b;
    assert "" + ([c] + b) == s;
    CutAt("", c, b, table);
    PlainText("", table);
    assert "" + ([c] + Restore(b, table)) == [c] + Restore(b, table);
  }

  lemma Unfold(x: string)
    ensures ['`', '`', ' '] + x == ['`'] + (['`'] + ([' '] + x))
    ensures [' ', '`', '`'] + x == [' '] + (['`'] + (['`'] + x))
  {
  }

  lemma DoubleParts(h: Span, table: seq<Hidden>)
    requires h.Span? && WellFormed(Unquoted(Double, h), |table|)
    ensures WellFormed(h.pre, |table|) && WellFormed(h.inner, |table|) && WellFormed(h.rest, |table|)
    ensures RefsOk(Cut(h.pre), |table|) && RefsOk(Cut(h.inner), |table|) && RefsOk(Cut(h.rest), |table|)
    ensures RefsOk(Cut(Unquoted(Double, h)), |table|)
    ensures Restore(Unquoted(Double, h), table)
         == Restore(h.pre, table) +
            (Opening(Double) + (Restore(h.inner, table) + (Closing(Double) + Restore(h.rest, table))))
  {
    var tail := Closing(Double) + h.rest;
    Unfold(h.inner + tail);
    Unfold(h.rest);
    CutAt(h.pre, '`', ['`'] + ([' '] + (h.inner + tail)), table);
    CutFirst('`', [' '] + (h.inner + tail), table);
    CutFirst(' ', h.inner + tail, table);
    CutAt(h.inner, ' ', ['`'] + (['`'] + h.rest), table);
    CutFirst('`', ['`'] + h.rest, table);
    CutFirst('`', h.rest, table);
    Unfold(Restore(h.rest, table));
    Unfold(Restore(h.inner + tail, table));
  }

  /** The quotes of a match are never part of a placeholder, so its parts are well-formed. */
  lemma SpanParts(q: Quotes, h: Span, table: seq<Hidden>)
    requires h.Span? && WellFormed(Unquoted(q, h), |table|)
    ensures WellFormed(h.pre, |table|) && WellFormed(h.inner, |table|) && WellFormed(h.rest, |table|)
    ensures RefsOk(Cut(h.pre), |table|) && RefsOk(Cut(h.inner), |table|) && RefsOk(Cut(h.rest), |table|)
    ensures RefsOk(Cut(Unquoted(q, h)), |table|)
    ensures Restore(Unquoted(q, h), table)
         == Restore(h.pre, table) + (Opening(q) + (Restore(h.inner, table) + (Closing(q) + Restore(h.rest, table))))
  {
    if q == Single {
      CutAt(h.pre, '`', h.inner + (['`'] + h.rest), table);
      CutAt(h.inner, '`', h.rest, table);
    } else {
      DoubleParts(h, table);
    }
  }

  /** What one pass of _processCodeSpans makes of the text from its iterator on. */
  function HideSpans(find: string -> Span, q: Quotes, s: string, table: seq<Hidden>): Hidings
    requires Finds(find, q) && WellFormed(s, |table|)
    decreases |s|
  {
    match find(s)
    case NoSpan => Hidings(s, table)
    case Span(pre, inner, rest) =>
      SpanParts(q, find(s), table);
      var table' := table + [CodeSpan(Restore(inner, table))];
      Grows(rest, table, table');
      var after := HideSpans(find, q, rest, table');
      Hidings(pre + NextItem(|table|, "codeSpan") + after.text, after.items)
  }

  /** The number of matches of a pass. */
  function Spans(find: string -> Span, q: Quotes, s: string): nat
    requires Finds(find, q)
    decreases |s|
  {
    match find(s)
    case NoSpan => 0
    case Span(_, _, rest) => 1 + Spans(find, q, rest)
  }

  /** A match with the text before it, restored, its quotes replaced by single backticks. */
  function SpanShown(h: Span, table: seq<Hidden>): string
    requires h.Span? && RefsOk(Cut(h.pre), |table|) && RefsOk(Cut(h.inner), |table|)
  {
    Restore(h.pre, table) + Original(CodeSpan(Restore(h.inner, table)))
  }

  /** The restored text with every match in single backticks: an independent reading of the pass,
      under the table that it starts with. */
  function SpansShown(find: string -> Span, q: Quotes, s: string, table: seq<Hidden>): string
    requires Finds(find, q) && WellFormed(s, |table|)
    decreases |s|
  {
    WellFormedRefsOk(s, |table|);
    var h := find(s);
    if h.NoSpan? then Restore(s, table)
    else
      SpanParts(q, h, table);
      SpanShown(h, table) + SpansShown(find, q, h.rest, table)
  }

  lemma SpanGrows(h: Span, table: seq<Hidden>, table': seq<Hidden>)
    requires h.Span? && WellFormed(h.pre, |table|) && WellFormed(h.inner, |table|) && table <= table'
    ensures RefsOk(Cut(h.pre), |table|) && RefsOk(Cut(h.inner), |table|)
    ensures RefsOk(Cut(h.pre), |table'|) && RefsOk(Cut(h.inner), |table'|)
    ensures SpanShown(h, table') == SpanShown(h, table)
  {
    Grows(h.pre, table, table');
    Grows(h.inner, table, table');
  }

  /** New table entries change nothing in what a text shows. */
  lemma {:induction false} SpansShownGrow(find: string -> Span, q: Quotes, s: string, table: seq<Hidden>,
      table': seq<Hidden>)
    requires Finds(find, q) && WellFormed(s, |table|) && table <= table'
    ensures WellFormed(s, |table'|) && SpansShown(find, q, s, table') == SpansShown(find, q, s, table)
    decreases |s|
  {
    Grows(s, table, table');
    var h := find(s);
    if h.Span? {
      SpanParts(q, h, table);
      SpanGrows(h, table, table');
      SpansShownGrow(find, q, h.rest, table, table');
    }
  }

  /** The restored text of a pass with one match less to come. */
  lemma OneSpan(pre: string, h: Hidden, after: Hidings, table: seq<Hidden>)
    requires WellFormed(pre, |table|) && WellFormed(after.text, |after.items|)
    requires table + [h] <= after.items
    ensures var s := pre + NextItem(|table|, "codeSpan") + after.text;
      && WellFormed(s, |after.items|) && RefsOk(Cut(s), |after.items|)
      && RefsOk(Cut(pre), |table|) && RefsOk(Cut(after.text), |after.items|)
      && Restore(s, after.items) == Restore(pre, table) + Original(h) + Restore(after.text, after.items)
  {
    var item := NextItem(|table|, "codeSpan");
    Grows(pre, table, after.items);
    NextItemOk(h, "codeSpan", table);
    Grows(item, table + [h], after.items);
    Append(pre, item, after.items);
    Append(pre + item, after.text, after.items);
  }

  /** The pass keeps the text well-formed and the old table entries, and every placeholder stands
      for its own span: restoring the result gives the text with its spans in single backticks. */
  lemma {:induction false} SpansRestore(find: string -> Span, q: Quotes, s: string, table: seq<Hidden>)
    requires Finds(find, q) && WellFormed(s, |table|)
    ensures var r := HideSpans(find, q, s, table);
      && table <= r.items && WellFormed(r.text, |r.items|) && RefsOk(Cut(r.text), |r.items|)
      && Restore(r.text, r.items) == SpansShown(find, q, s, table)
      && |r.items| == |table| + Spans(find, q, s)
    decreases |s|
  {
    WellFormedRefsOk(s, |table|);
    match find(s)
    case NoSpan =>
    case Span(pre, inner, rest) =>
      SpanParts(q, find(s), table);
      var h := CodeSpan(Restore(inner, table));
      var table' := table + [h];
      Grows(rest, table, table');
      SpansRestore(find, q, rest, table');
      SpansShownGrow(find, q, rest, table, table');
      OneSpan(pre, h, HideSpans(find, q, rest, table'), table);
  }

  lemma SingleRegroup(pre: string, inner: string, rest: string)
    ensures pre + (['`'] + (inner + (['`'] + rest))) == pre + (['`'] + inner + ['`']) + rest
  {
  }

  /** Single backticks are what a span is restored with; double ones cost four characters a span. */
  lemma {:induction false} ShownLength(find: string -> Span, q: Quotes, s: string, table: seq<Hidden>)
    requires Finds(find, q) && WellFormed(s, |table|)
    ensures RefsOk(Cut(s), |table|)
    ensures q == Single ==> SpansShown(find, q, s, table) == Restore(s, table)
    ensures |Restore(s, table)| == |SpansShown(find, q, s, table)| + (if q == Double then 4 * Spans(find, q, s) else 0)
    decreases |s|
  {
    WellFormedRefsOk(s, |table|);
    var h := find(s);
    if h.Span? {
      SpanParts(q, h, table);
      ShownLength(find, q, h.rest, table);
      if q == Single {
        SingleRegroup(Restore(h.pre, table), Restore(h.inner, table), Restore(h.rest, table));
      }
    }
  }

  /** Hiding single-backtick spans is invisible to restoring. */
  lemma SingleSpansAreInvisible(find: string -> Span, s: string, table: seq<Hidden>)
    requires Finds(find, Single) && WellFormed(s, |table|)
    ensures var r := HideSpans(find, Single, s, table);
      && table <= r.items && WellFormed(r.text, |r.items|)
      && RefsOk(Cut(s), |table|) && RefsOk(Cut(r.text), |r.items|)
      && Restore(r.text, r.items) == Restore(s, table)
  {
    SpansRestore(find, Single, s, table);
    ShownLength(find, Single, s, table);
  }

  /** The double-backtick pass is invisible to restoring if and only if it matches nothing. */
  lemma DoubleSpansAreLost(find: string -> Span, s: string, table: seq<Hidden>)
    requires Finds(find, Double) && WellFormed(s, |table|)
    ensures var r := HideSpans(find, Double, s, table);
      && table <= r.items && WellFormed(r.text, |r.items|)
      && RefsOk(Cut(s), |table|) && RefsOk(Cut(r.text), |r.items|)
      && (Restore(r.text, r.items) == Restore(s, table) <==> find(s).NoSpan?)
  {
    SpansRestore(find, Double, s, table);
    ShownLength(find, Double, s, table);
  }

  lemma RestoredPlain(s: string)
    requires MARK !in s
    ensures WellFormed(s, 0) && RefsOk(Cut(s), 0) && Restore(s, []) == s
  {
    PlainText(s, []);
  }

  lemma ShownStep(find: string -> Span, q: Quotes, s: string, table: seq<Hidden>)
    requires Finds(find, q) && WellFormed(s, |table|) && find(s).Span?
    ensures var h := find(s);
      && RefsOk(Cut(h.pre), |table|) && RefsOk(Cut(h.inner), |table|) && WellFormed(h.rest, |table|)
      && SpansShown(find, q, s, table) == SpanShown(h, table) + SpansShown(find, q, h.rest, table)
  {
    SpanParts(q, find(s), table);
  }

  lemma PlainSpan(h: Span)
    requires h.Span? && MARK !in h.pre && MARK !in h.inner
    ensures RefsOk(Cut(h.pre), 0) && RefsOk(Cut(h.inner), 0)
    ensures SpanShown(h, []) == h.pre + (['`'] + h.inner + ['`'])
  {
    RestoredPlain(h.pre);
    RestoredPlain(h.inner);
  }

  /** A text with one span in double backticks comes back with single ones. */
  lemma DoubleSpanRequoted(find: string -> Span, s: string, h: Span)
    requires Finds(find, Double) && h.Span? && find(s) == h && find(h.rest).NoSpan?
    requires MARK !in h.pre && MARK !in h.inner && MARK !in h.rest && MARK !in s
    ensures WellFormed(s, 0)
    ensures SpansShown(find, Double, s, []) == h.pre + (['`'] + h.inner + ['`']) + h.rest
  {
    RestoredPlain(s);
    RestoredPlain(h.rest);
    ShownStep(find, Double, s, []);
    PlainSpan(h);
  }

  /** A span in double backticks, a matcher that finds it, and what comes back. */
  lemma DoubleSpanExample() returns (find: string -> Span)
    ensures Finds(find, Double) && find("`` a ``").Span? && WellFormed("`` a ``", 0)
    ensures SpansShown(find, Double, "`` a ``", []) == "`a`"
  {
    var s := "`` a ``";
    find := t => if t == s then Span("", "a", "") else NoSpan;
    assert Unquoted(Double, Span("", "a", "")) == s;
    assert find("").NoSpan?;
    DoubleSpanRequoted(find, s, find(s));
    assert "" + (['`'] + "a" + ['`']) + "" == "`a`";
  }

  /** One pass of _processCodeSpans; `rest` is the text from the iterator `prev` on. */
  method HidePass(src: string, find: string -> Span, q: Quotes, replacements: ReplacementTable) returns (tgt: string)
    requires Finds(find, q) && WellFormed(src, |replacements.items|)
    modifies replacements
    ensures Hidings(tgt, replacements.items) == old(HideSpans(find, q, src, replacements.items))
  {
    tgt := "";
    var rest := src;
    ghost var goal := HideSpans(find, q, src, replacements.items);
    while true
      invariant WellFormed(rest, |replacements.items|)
      invariant tgt + HideSpans(find, q, rest, replacements.items).text == goal.text
      invariant HideSpans(find, q, rest, replacements.items).items == goal.items
      decreases |rest|
    {
      match find(rest) {
        case Span(pre, inner, after) =>
          ghost var table := replacements.items;
          SpanParts(q, find(rest), table);
          var item := NextItem(|replacements.items|, "codeSpan");
          var text := RestoreProcessedItems(inner, replacements.items);
          replacements.PushBack(CodeSpan(text));
          Grows(after, table, replacements.items);
          ghost var todo := HideSpans(find, q, after, replacements.items).text;
          Assoc(tgt, pre, item, todo);
          tgt, rest := tgt + pre + item, after;
        case NoSpan =>
          tgt := tgt + rest;
          return;
      }
    }
  }

  /** Both passes. */
  function HideCode(double: string -> Span, single: string -> Span, s: string, table: seq<Hidden>): Hidings
    requires Finds(double, Double) && Finds(single, Single) && WellFormed(s, |table|)
  {
    SpansRestore(double, Double, s, table);
    var first := HideSpans(double, Double, s, table);
    HideSpans(single, Single, first.text, first.items)
  }

  /** _processCodeSpans. */
  method ProcessCodeSpans(src: string, double: string -> Span, single: string -> Span, replacements: ReplacementTable)
    returns (tgt: string)
    requires Finds(double, Double) && Finds(single, Single) && WellFormed(src, |replacements.items|)
    modifies replacements
    ensures Hidings(tgt, replacements.items) == old(HideCode(double, single, src, replacements.items))
  {
    SpansRestore(double, Double, src, replacements.items);
    tgt := HidePass(src, double, Double, replacements);
    tgt := HidePass(tgt, single, Single, replacements);
  }

  /** Code spans and escapes together: for a text without control characters, restoring the hidden
      text gives the text itself if and only if there is no double-backtick span. */
  lemma HidingIsInvisible(double: string -> Span, single: string -> Span, s: string)
    requires Finds(double, Double) && Finds(single, Single)
    requires MARK !in s
    ensures WellFormed(s, 0)
    ensures var r := HideCode(double, single, s, []);
      && WellFormed(HideEscapes(r.text), |r.items|) && RefsOk(Cut(HideEscapes(r.text)), |r.items|)
      && (Restore(HideEscapes(r.text), r.items) == s <==> double(s).NoSpan?)
  {
    PlainText(s, []);
    DoubleSpansAreLost(double, s, []);
    var first := HideSpans(double, Double, s, []);
    SingleSpansAreInvisible(single, first.text, first.items);
    var r := HideCode(double, single, s, []);
    EscapesAreInvisible(r.text, r.items);
  }
}
