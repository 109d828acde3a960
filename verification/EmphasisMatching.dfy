/** The first matching pass over the marker list, on values. */
module EmphasisMatching {
  import opened Wrappers
  import opened EmphasisTokens

  /** How the scan for a closer of one opener ends. `tail` is the list behind the opener as the
      scan leaves it; closers of size 3 may have been split on the way. */
  datatype ScanResult =
    | NotFound(tail: seq<Tok>)
    | Found(tail: seq<Tok>)
    | SplitOpen(closeSize: nat)
    | Mixed

  /** The number of markers that can still be split. */
  function Splittable(s: seq<Tok>): nat {
    if s == [] then 0
    else (if (UnmatchedOpen(s[0]) || UnmatchedClose(s[0])) && s[0].size == 3 then 1 else 0) + Splittable(s[1..])
  }

  /** Every split replaces one splittable marker by three tokens, of which none is splittable. */
  function Weight(s: seq<Tok>): nat {
    |s| + 3 * Splittable(s)
  }

  /** The two closers that replace a closer of size 3: the leftovers, then the match. */
  function SplitCloser(t: Tok, size: nat): seq<Tok>
    requires t.Marker? && size <= 3
  {
    [Fresh(false, t.ch, 3 - size), Fresh(false, t.ch, size)]
  }

  /** The two openers that replace an opener of size 3. */
  function SplitOpener(t: Tok, size: nat): seq<Tok>
    requires t.Marker? && size <= 3
  {
    [Fresh(true, t.ch, 3 - size), Fresh(true, t.ch, size)]
  }

  lemma WeightCons(t: Tok, s: seq<Tok>)
    ensures ([t] + s)[1..] == s
    ensures Weight([t] + s) == 1 + Weight(s) + (if (UnmatchedOpen(t) || UnmatchedClose(t)) && t.size == 3 then 3 else 0)
  {
    assert ([t] + s)[1..] == s;
  }

  lemma WeightTwo(a: Tok, b: Tok, s: seq<Tok>)
    requires a.Marker? && a.size != 3 && b.Marker? && b.size != 3
    ensures Weight([a, b] + s) == 2 + Weight(s)
  {
    WeightCons(b, s);
    WeightCons(a, [b] + s);
    assert [a, b] + s == [a] + ([b] + s);
  }

  lemma WeightHead(s: seq<Tok>)
    requires s != []
    ensures Weight(s) == 1 + Weight(s[1..]) +
              (if (UnmatchedOpen(s[0]) || UnmatchedClose(s[0])) && s[0].size == 3 then 3 else 0)
  {
  }

  function ThenTail(t: Tok, r: ScanResult): ScanResult {
    match r
    case NotFound(tail) => NotFound([t] + tail)
    case Found(tail) => Found([t] + tail)
    case _ => r
  }

  /** The inner loop, from the token behind opener `o` on.
      An opener of size 3 that meets an unmatched closer of size 3 and of the other character is
      the one case (`Mixed`) in which the pass does not come to an end. */
  function Scan(o: Tok, s: seq<Tok>, id: nat): ScanResult
    requires UnmatchedOpen(o) && Sane(o) && AllSane(s)
    decreases Weight(s)
  {
    if s == [] then NotFound([])
    else
      var t := s[0];
      if !UnmatchedClose(t) then ThenTail(t, Scan(o, s[1..], id))
      else if t.size == 3 && o.size != 3 then
        WeightHead(s);
        WeightTwo(Fresh(false, t.ch, 3 - o.size), Fresh(false, t.ch, o.size), s[1..]);
        ThenTail(Disable(t), Scan(o, SplitCloser(t, o.size) + s[1..], id))
      else if t.ch == o.ch && t.size == o.size then Found([t.(id := id)] + s[1..])
      else if o.size == 3 then if t.size == 3 then Mixed else SplitOpen(t.size)
      else ThenTail(t, Scan(o, s[1..], id))
  }

  lemma ThenTailWeight(t: Tok, r: ScanResult)
    ensures match r
            case NotFound(tail) => Weight(([t] + tail)) == Weight([t]) + Weight(tail)
            case Found(tail) => Weight(([t] + tail)) == Weight([t]) + Weight(tail)
            case _ => true
  {
    WeightCons(t, []);
    assert [t] + [] == [t];
    if r.NotFound? || r.Found? { WeightCons(t, r.tail); }
  }

  lemma {:induction false} ScanWeight(o: Tok, s: seq<Tok>, id: nat)
    requires UnmatchedOpen(o) && Sane(o) && AllSane(s)
    ensures match Scan(o, s, id)
            case NotFound(tail) => Weight(tail) <= Weight(s) && AllSane(tail)
            case Found(tail) => Weight(tail) <= Weight(s) && AllSane(tail)
            case SplitOpen(k) => o.size == 3 && 1 <= k <= 2
            case Mixed => o.size == 3
    decreases Weight(s)
  {
    if s != [] {
      var t := s[0];
      WeightHead(s);
      if !UnmatchedClose(t) {
        ScanWeight(o, s[1..], id);
        ThenTailWeight(t, Scan(o, s[1..], id));
      } else if t.size == 3 && o.size != 3 {
        WeightTwo(Fresh(false, t.ch, 3 - o.size), Fresh(false, t.ch, o.size), s[1..]);
        ScanWeight(o, SplitCloser(t, o.size) + s[1..], id);
        ThenTailWeight(Disable(t), Scan(o, SplitCloser(t, o.size) + s[1..], id));
      } else if t.ch == o.ch && t.size == o.size {
        WeightCons(t.(id := id), s[1..]);
      } else if o.size != 3 {
        ScanWeight(o, s[1..], id);
        ThenTailWeight(t, Scan(o, s[1..], id));
      }
    }
  }

  function ThenWalk(t: Tok, r: Option<seq<Tok>>): Option<seq<Tok>> {
    if r.None? then None else Some([t] + r.value)
  }

  /** The outer loop over the list `s` that is still ahead, `id` being the next free pair id.
      None stands for the run that never ends. */
  function Walk(s: seq<Tok>, id: nat): Option<seq<Tok>>
    requires AllSane(s)
    decreases Weight(s)
  {
    if s == [] then Some([])
    else
      var o := s[0];
      WeightHead(s);
      if !UnmatchedOpen(o) then ThenWalk(o, Walk(s[1..], id))
      else
        ScanWeight(o, s[1..], id);
        match Scan(o, s[1..], id)
        case NotFound(tail) => ThenWalk(o, Walk(tail, id))
        case Found(tail) => ThenWalk(o.(id := id), Walk(tail, id + 1))
        case SplitOpen(size) =>
          WeightTwo(Fresh(true, o.ch, 3 - size), Fresh(true, o.ch, size), s[1..]);
          ThenWalk(Disable(o), Walk(SplitOpener(o, size) + s[1..], id))
        case Mixed => None
  }

  // ---------------------------------------------------------------- the source text is conserved

  lemma ContentCons(t: Tok, s: seq<Tok>)
    ensures Content([t] + s) == ContentOf(t) + Content(s)
  {
    assert ([t] + s)[1..] == s;
  }

  lemma JoinAgain(a: seq<Atom>, b: seq<Atom>, c: seq<Atom>)
    ensures a + (b + c) == (a + b) + c
  {
  }

  lemma ContentTwo(a: Tok, b: Tok, s: seq<Tok>)
    ensures Content([a, b] + s) == (ContentOf(a) + ContentOf(b)) + Content(s)
  {
    ContentCons(b, s);
    ContentCons(a, [b] + s);
    assert [a, b] + s == [a] + ([b] + s);
    JoinAgain(ContentOf(a), ContentOf(b), Content(s));
  }

  lemma PiecesJoin(a: Tok, b: Tok, t: Tok)
    requires t.Marker? && !t.disabled && a.Marker? && b.Marker? && !a.disabled && !b.disabled
    requires a.ch == b.ch == t.ch && a.size + b.size == t.size
    ensures ContentOf(a) + ContentOf(b) == ContentOf(t)
  {
  }

  lemma ContentPieces(a: Tok, b: Tok, s: seq<Tok>, t: Tok)
    requires t.Marker? && !t.disabled && a.Marker? && b.Marker? && !a.disabled && !b.disabled
    requires a.ch == b.ch == t.ch && a.size + b.size == t.size
    ensures Content([a, b] + s) == ContentOf(t) + Content(s)
  {
    ContentTwo(a, b, s);
    PiecesJoin(a, b, t);
  }

  lemma DisabledIsSilent(t: Tok, s: seq<Tok>)
    requires t.Marker?
    ensures Content([Disable(t)] + s) == Content(s)
  {
    ContentCons(Disable(t), s);
    assert [] + Content(s) == Content(s);
  }

  lemma {:induction false} ScanConserves(o: Tok, s: seq<Tok>, id: nat)
    requires UnmatchedOpen(o) && Sane(o) && AllSane(s)
    ensures match Scan(o, s, id)
            case NotFound(tail) => Content(tail) == Content(s)
            case Found(tail) => Content(tail) == Content(s)
            case _ => true
    decreases Weight(s)
  {
    if s != [] {
      var t := s[0];
      WeightHead(s);
      if UnmatchedClose(t) && t.size == 3 && o.size != 3 {
        WeightTwo(Fresh(false, t.ch, 3 - o.size), Fresh(false, t.ch, o.size), s[1..]);
        var s' := SplitCloser(t, o.size) + s[1..];
        ScanConserves(o, s', id);
        ContentPieces(s'[0], s'[1], s[1..], t);
        if Scan(o, s', id).NotFound? || Scan(o, s', id).Found? {
          DisabledIsSilent(t, Scan(o, s', id).tail);
        }
      } else if UnmatchedClose(t) && t.ch == o.ch && t.size == o.size {
        ContentCons(t.(id := id), s[1..]);
      } else if !UnmatchedClose(t) || o.size != 3 {
        ScanConserves(o, s[1..], id);
        if Scan(o, s[1..], id).NotFound? || Scan(o, s[1..], id).Found? {
          ContentCons(t, Scan(o, s[1..], id).tail);
        }
      }
    }
  }

  /** The first pass never changes what the list stands for. */
  lemma {:induction false} WalkConserves(s: seq<Tok>, id: nat)
    requires AllSane(s) && Walk(s, id).Some?
    ensures Content(Walk(s, id).value) == Content(s)
    decreases Weight(s)
  {
    if s != [] {
      var o := s[0];
      WeightHead(s);
      if !UnmatchedOpen(o) {
        WalkConserves(s[1..], id);
        ContentCons(o, Walk(s[1..], id).value);
      } else {
        ScanWeight(o, s[1..], id);
        ScanConserves(o, s[1..], id);
        match Scan(o, s[1..], id)
        case NotFound(tail) =>
          WalkConserves(tail, id);
          ContentCons(o, Walk(tail, id).value);
        case Found(tail) =>
          WalkConserves(tail, id + 1);
          ContentCons(o.(id := id), Walk(tail, id + 1).value);
        case SplitOpen(size) =>
          WeightTwo(Fresh(true, o.ch, 3 - size), Fresh(true, o.ch, size), s[1..]);
          var s' := SplitOpener(o, size) + s[1..];
          WalkConserves(s', id);
          ContentPieces(s'[0], s'[1], s[1..], o);
          DisabledIsSilent(o, Walk(s', id).value);
      }
    }
  }
}
