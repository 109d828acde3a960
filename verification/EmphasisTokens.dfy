/** Emphasis markers as values: the states of a BoldOrItalicMarker and of the text between
    markers, with the status predicates that the two matching passes look at.

    A marker's match pointer and its id are set and cleared together, so a value keeps only
    the id: a marker is matched when its id is not negative, and two markers are partners when
    they carry the same id. */
module EmphasisTokens {
  import opened Encoders

  datatype Tok =
    | Text(text: string)
    | Marker(open: bool, ch: char, size: nat, id: int, cannotMatch: bool, disabled: bool)

  /** A marker as its constructor leaves it. */
  function Fresh(open: bool, ch: char, size: nat): Tok {
    Marker(open, ch, size, -1, false, false)
  }

  predicate UnmatchedOpen(t: Tok) {
    t.Marker? && t.open && t.id < 0 && !t.cannotMatch
  }

  predicate UnmatchedClose(t: Tok) {
    t.Marker? && !t.open && t.id < 0 && !t.cannotMatch
  }

  predicate MatchedOpen(t: Tok) {
    t.Marker? && t.open && t.id >= 0
  }

  predicate MatchedClose(t: Tok) {
    t.Marker? && !t.open && t.id >= 0
  }

  function Disable(t: Tok): Tok
    requires t.Marker?
  {
    t.(cannotMatch := true, disabled := true)
  }

  /** The token list that the tokenizer hands over: texts and untouched markers of size 1 to 3. */
  predicate Untouched(s: seq<Tok>) {
    forall i :: 0 <= i < |s| ==>
      s[i].Marker? ==> 1 <= s[i].size <= 3 && s[i] == Fresh(s[i].open, s[i].ch, s[i].size)
  }

  /** What every pass keeps of every marker: the size is the 1, 2 or 3 that the HTML writer
      asserts, a marker is disabled and barred from matching together, and then unmatched. */
  predicate Sane(t: Tok) {
    t.Marker? ==> 1 <= t.size <= 3 && t.id >= -1 && t.cannotMatch == t.disabled && (t.disabled ==> t.id == -1)
  }

  predicate AllSane(s: seq<Tok>) {
    forall i :: 0 <= i < |s| ==> Sane(s[i])
  }

  // ---------------------------------------------------------------- what a list stands for

  /** A text token, or one character of a marker. */
  datatype Atom = Whole(text: string) | One(ch: char)

  /** What a token stands for: a marker counts as `size` copies of its character, a disabled one as
      nothing. */
  function ContentOf(t: Tok): seq<Atom> {
    match t
    case Text(text) => [Whole(text)]
    case Marker(_, ch, size, _, _, disabled) => if disabled then [] else seq(size, _ => One(ch))
  }

  function Content(s: seq<Tok>): seq<Atom> {
    if s == [] then [] else ContentOf(s[0]) + Content(s[1..])
  }

  // ---------------------------------------------------------------- writing HTML

  function Copies(c: char, n: nat): string {
    seq(n, _ => c)
  }

  /** TextHolder::writeAsHtml for raw text, and BoldOrItalicMarker::writeAsHtml. */
  function Html(t: Tok): string {
    match t
    case Text(text) => Encode(text, TEXT)
    case Marker(open, ch, size, id, _, disabled) =>
      if disabled then ""
      else if id >= 0 then
        if open then (if size == 1 then "<em>" else if size == 2 then "<strong>" else "<strong><em>")
        else (if size == 1 then "</em>" else if size == 2 then "</strong>" else "</em></strong>")
      else Copies(ch, size)
  }
}
