/** What the first pass leaves behind: a sound and maximal pairing of markers. */
module EmphasisPairing {
  import opened EmphasisTokens
  import opened EmphasisMatching

  // ---------------------------------------------------------------- sound pairs

  /** The kind of marker that may close an opener: its character and size. */
  datatype Kind = Kind(ch: char, size: nat)

  /** Reading the list from the left, `open` holds the matched openers whose closer is still
      ahead. Every matched closer takes out the opener with its id, which must have the same
      character and size, and at the end none is left over. */
  predicate Paired(s: seq<Tok>, open: map<int, Kind>) {
    if s == [] then open == map[]
    else if MatchedOpen(s[0]) then
      s[0].id !in open && Paired(s[1..], open[s[0].id := Kind(s[0].ch, s[0].size)])
    else if MatchedClose(s[0]) then
      s[0].id in open && open[s[0].id] == Kind(s[0].ch, s[0].size) && Paired(s[1..], open - {s[0].id})
    else Paired(s[1..], open)
  }

  /** Matched openers carry ids that grow from left to right, so no id is used by two pairs. */
  predicate Ascending(s: seq<Tok>, least: int) {
    if s == [] then true
    else if MatchedOpen(s[0]) then least <= s[0].id && Ascending(s[1..], s[0].id + 1)
    else Ascending(s[1..], least)
  }

  predicate NoMatchedOpen(s: seq<Tok>) {
    forall i :: 0 <= i < |s| ==> !MatchedOpen(s[i])
  }

  ghost predicate IdsBelow(open: map<int, Kind>, id: int) {
    forall k :: k in open ==> k < id
  }

  lemma PairedCons(t: Tok, s: seq<Tok>, open: map<int, Kind>)
    ensures !MatchedOpen(t) && !MatchedClose(t) ==> Paired([t] + s, open) == Paired(s, open)
    ensures MatchedOpen(t) ==> Paired([t] + s, open) == (t.id !in open && Paired(s, open[t.id := Kind(t.ch, t.size)]))
    ensures MatchedClose(t) ==>
      Paired([t] + s, open) == (t.id in open && open[t.id] == Kind(t.ch, t.size) && Paired(s, open - {t.id}))
  {
    assert ([t] + s)[1..] == s;
  }

  lemma PairedTwo(a: Tok, b: Tok, s: seq<Tok>, open: map<int, Kind>)
    requires !MatchedOpen(a) && !MatchedClose(a) && !MatchedOpen(b) && !MatchedClose(b)
    ensures Paired([a, b] + s, open) == Paired(s, open)
  {
    assert [a, b] + s == [a] + ([b] + s);
    PairedCons(b, s, open);
    PairedCons(a, [b] + s, open);
  }

  /** The pairs waiting in front of a scan, with the new pair if the scan finds one. */
  function WithPair(open: map<int, Kind>, o: Tok, id: int, found: bool): map<int, Kind>
    requires o.Marker?
  {
    if found then open[id := Kind(o.ch, o.size)] else open
  }

  /** Putting the token that a scan passed back in front of what it found. */
  lemma PairStep(t: Tok, r: ScanResult, open: map<int, Kind>, o: Tok, id: int)
    requires !MatchedOpen(t) && o.Marker? && id !in open
    requires MatchedClose(t) ==> t.id in open && open[t.id] == Kind(t.ch, t.size)
    requires r.NotFound? || r.Found? ==>
      NoMatchedOpen(r.tail)
      && Paired(r.tail, WithPair(if MatchedClose(t) then open - {t.id} else open, o, id, r.Found?))
    ensures r.NotFound? || r.Found? ==>
      NoMatchedOpen([t] + r.tail) && Paired([t] + r.tail, WithPair(open, o, id, r.Found?))
  {
    if r.NotFound? || r.Found? {
      PairedCons(t, r.tail, WithPair(open, o, id, r.Found?));
      if MatchedClose(t) {
        assert WithPair(open, o, id, r.Found?) - {t.id} == WithPair(open - {t.id}, o, id, r.Found?);
      }
    }
  }

  lemma {:induction false} ScanPairs(o: Tok, s: seq<Tok>, id: nat, open: map<int, Kind>)
    requires UnmatchedOpen(o) && Sane(o) && AllSane(s)
    requires NoMatchedOpen(s) && Paired(s, open) && id !in open
    ensures match Scan(o, s, id)
            case NotFound(tail) => NoMatchedOpen(tail) && Paired(tail, open)
            case Found(tail) => NoMatchedOpen(tail) && Paired(tail, WithPair(open, o, id, true))
            case _ => true
    decreases Weight(s)
  {
    if s != [] {
      var t := s[0];
      WeightHead(s);
      if UnmatchedClose(t) && t.size == 3 && o.size != 3 {
        WeightTwo(Fresh(false, t.ch, 3 - o.size), Fresh(false, t.ch, o.size), s[1..]);
        var s' := SplitCloser(t, o.size) + s[1..];
        PairedTwo(s'[0], s'[1], s[1..], open);
        ScanPairs(o, s', id, open);
        PairStep(Disable(t), Scan(o, s', id), open, o, id);
      } else if UnmatchedClose(t) && t.ch == o.ch && t.size == o.size {
        var open' := WithPair(open, o, id, true);
        PairedCons(t.(id := id), s[1..], open');
        assert open' - {id} == open;
      } else if !UnmatchedClose(t) || o.size != 3 {
        var open' := if MatchedClose(t) then open - {t.id} else open;
        ScanPairs(o, s[1..], id, open');
        PairStep(t, Scan(o, s[1..], id), open, o, id);
      }
    }
  }

  lemma AscendingCons(t: Tok, s: seq<Tok>, least: int)
    ensures Ascending([t] + s, least) ==
      if MatchedOpen(t) then least <= t.id && Ascending(s, t.id + 1) else Ascending(s, least)
  {
    assert ([t] + s)[1..] == s;
  }

  lemma UnpairedBehind(t: Tok, w: seq<Tok>, open: map<int, Kind>, id: int)
    requires !MatchedOpen(t) && !MatchedClose(t) && Paired(w, open) && Ascending(w, id)
    ensures Paired([t] + w, open) && Ascending([t] + w, id)
  {
    PairedCons(t, w, open);
    AscendingCons(t, w, id);
  }

  lemma CloserBehind(t: Tok, w: seq<Tok>, open: map<int, Kind>, id: int)
    requires MatchedClose(t) && t.id in open && open[t.id] == Kind(t.ch, t.size)
    requires Paired(w, open - {t.id}) && Ascending(w, id)
    ensures Paired([t] + w, open) && Ascending([t] + w, id)
  {
    PairedCons(t, w, open);
    AscendingCons(t, w, id);
  }

  lemma OpenerBehind(t: Tok, w: seq<Tok>, open: map<int, Kind>, id: int)
    requires MatchedOpen(t) && t.id == id && id !in open
    requires Paired(w, open[id := Kind(t.ch, t.size)]) && Ascending(w, id + 1)
    ensures Paired([t] + w, open) && Ascending([t] + w, id)
  {
    PairedCons(t, w, open);
    AscendingCons(t, w, id);
  }

  lemma SplitPairs(o: Tok, size: nat, s: seq<Tok>, open: map<int, Kind>)
    requires o.Marker? && size <= 3 && Paired(s, open) && NoMatchedOpen(s)
    ensures Paired(SplitOpener(o, size) + s, open) && NoMatchedOpen(SplitOpener(o, size) + s)
  {
    PairedTwo(Fresh(true, o.ch, 3 - size), Fresh(true, o.ch, size), s, open);
  }

  /** The pass pairs every opener it matches with one later closer of its character and size. */
  lemma {:induction false} WalkPairs(s: seq<Tok>, id: nat, open: map<int, Kind>)
    requires AllSane(s) && Walk(s, id).Some?
    requires NoMatchedOpen(s) && Paired(s, open) && IdsBelow(open, id)
    ensures Paired(Walk(s, id).value, open) && Ascending(Walk(s, id).value, id)
    decreases Weight(s)
  {
    if s != [] {
      var o := s[0];
      WeightHead(s);
      if MatchedClose(o) {
        WalkPairs(s[1..], id, open - {o.id});
        CloserBehind(o, Walk(s[1..], id).value, open, id);
      } else if !UnmatchedOpen(o) {
        WalkPairs(s[1..], id, open);
        UnpairedBehind(o, Walk(s[1..], id).value, open, id);
      } else {
        ScanWeight(o, s[1..], id);
        ScanPairs(o, s[1..], id, open);
        match Scan(o, s[1..], id)
        case NotFound(tail) =>
          WalkPairs(tail, id, open);
          UnpairedBehind(o, Walk(tail, id).value, open, id);
        case Found(tail) =>
          WalkPairs(tail, id + 1, WithPair(open, o, id, true));
          OpenerBehind(o.(id := id), Walk(tail, id + 1).value, open, id);
        case SplitOpen(size) =>
          WeightTwo(Fresh(true, o.ch, 3 - size), Fresh(true, o.ch, size), s[1..]);
          SplitPairs(o, size, s[1..], open);
          WalkPairs(SplitOpener(o, size) + s[1..], id, open);
          UnpairedBehind(Disable(o), Walk(SplitOpener(o, size) + s[1..], id).value, open, id);
      }
    }
  }

  lemma {:induction false} WalkKeepsSane(s: seq<Tok>, id: nat)
    requires AllSane(s) && Walk(s, id).Some?
    ensures AllSane(Walk(s, id).value)
    decreases Weight(s)
  {
    if s != [] {
      var o := s[0];
      WeightHead(s);
      if !UnmatchedOpen(o) {
        WalkKeepsSane(s[1..], id);
      } else {
        ScanWeight(o, s[1..], id);
        match Scan(o, s[1..], id)
        case NotFound(tail) => WalkKeepsSane(tail, id);
        case Found(tail) => WalkKeepsSane(tail, id + 1);
        case SplitOpen(size) =>
          WeightTwo(Fresh(true, o.ch, 3 - size), Fresh(true, o.ch, size), s[1..]);
          WalkKeepsSane(SplitOpener(o, size) + s[1..], id);
      }
    }
  }

  // ---------------------------------------------------------------- maximal matching

  /** An unmatched closer that the scan of an opener of this kind does not pass by: it closes the
      opener, or one of the two is split for the other. */
  predicate Answers(t: Tok, k: Kind) {
    UnmatchedClose(t) && (t.size == 3 || k.size == 3 || Kind(t.ch, t.size) == k)
  }

  /** No token of `s` answers an opener of this kind. */
  predicate Blocked(s: seq<Tok>, k: Kind) {
    forall i :: 0 <= i < |s| ==> !Answers(s[i], k)
  }

  lemma BlockedCons(t: Tok, s: seq<Tok>, k: Kind)
    requires Blocked(s, k) && !Answers(t, k)
    ensures Blocked([t] + s, k)
  {
  }

  /** A scan that fails has left no closer behind that its opener could have taken. */
  lemma {:induction false} FailedScanBlocks(o: Tok, s: seq<Tok>, id: nat)
    requires UnmatchedOpen(o) && Sane(o) && AllSane(s)
    ensures Scan(o, s, id).NotFound? ==> Blocked(Scan(o, s, id).tail, Kind(o.ch, o.size))
    decreases Weight(s)
  {
    if s != [] && Scan(o, s, id).NotFound? {
      var t := s[0];
      var k := Kind(o.ch, o.size);
      WeightHead(s);
      if UnmatchedClose(t) && t.size == 3 && o.size != 3 {
        WeightTwo(Fresh(false, t.ch, 3 - o.size), Fresh(false, t.ch, o.size), s[1..]);
        var s' := SplitCloser(t, o.size) + s[1..];
        FailedScanBlocks(o, s', id);
        BlockedCons(Disable(t), Scan(o, s', id).tail, k);
      } else {
        FailedScanBlocks(o, s[1..], id);
        BlockedCons(t, Scan(o, s[1..], id).tail, k);
      }
    }
  }

  lemma {:induction false} ScanKeepsBlocked(o: Tok, s: seq<Tok>, id: nat, k: Kind)
    requires UnmatchedOpen(o) && Sane(o) && AllSane(s) && Blocked(s, k)
    ensures match Scan(o, s, id)
            case NotFound(tail) => Blocked(tail, k)
            case Found(tail) => Blocked(tail, k)
            case _ => true
    decreases Weight(s)
  {
    if s != [] {
      var t := s[0];
      WeightHead(s);
      if UnmatchedClose(t) && t.ch == o.ch && t.size == o.size {
        BlockedCons(t.(id := id), s[1..], k);
      } else if !UnmatchedClose(t) || o.size != 3 {
        ScanKeepsBlocked(o, s[1..], id, k);
        if Scan(o, s[1..], id).NotFound? || Scan(o, s[1..], id).Found? {
          BlockedCons(t, Scan(o, s[1..], id).tail, k);
        }
      }
    }
  }

  lemma {:induction false} WalkKeepsBlocked(s: seq<Tok>, id: nat, k: Kind)
    requires AllSane(s) && Walk(s, id).Some? && Blocked(s, k)
    ensures Blocked(Walk(s, id).value, k)
    decreases Weight(s)
  {
    if s != [] {
      var o := s[0];
      WeightHead(s);
      if !UnmatchedOpen(o) {
        WalkKeepsBlocked(s[1..], id, k);
        BlockedCons(o, Walk(s[1..], id).value, k);
      } else {
        ScanWeight(o, s[1..], id);
        ScanKeepsBlocked(o, s[1..], id, k);
        match Scan(o, s[1..], id)
        case NotFound(tail) =>
          WalkKeepsBlocked(tail, id, k);
          BlockedCons(o, Walk(tail, id).value, k);
        case Found(tail) =>
          WalkKeepsBlocked(tail, id + 1, k);
          BlockedCons(o.(id := id), Walk(tail, id + 1).value, k);
        case SplitOpen(size) =>
          WeightTwo(Fresh(true, o.ch, 3 - size), Fresh(true, o.ch, size), s[1..]);
          var s' := SplitOpener(o, size) + s[1..];
          WalkKeepsBlocked(s', id, k);
          BlockedCons(Disable(o), Walk(s', id).value, k);
      }
    }
  }

  /** No unmatched opener is followed by an unmatched closer that could close it, whole or after
      either of them has been split. So no unmatched closer of size 3 is left on the right of an
      unmatched opener, and no unmatched closer at all on the right of an opener of size 3. */
  predicate Maximal(s: seq<Tok>) {
    forall i, j :: 0 <= i < j < |s| && UnmatchedOpen(s[i]) ==> !Answers(s[j], Kind(s[i].ch, s[i].size))
  }

  lemma MaximalCons(t: Tok, s: seq<Tok>)
    requires Maximal(s)
    requires UnmatchedOpen(t) ==> Blocked(s, Kind(t.ch, t.size))
    ensures Maximal([t] + s)
  {
    var r := [t] + s;
    forall i, j | 0 <= i < j < |r| && UnmatchedOpen(r[i]) ensures !Answers(r[j], Kind(r[i].ch, r[i].size)) {
      assert r[j] == s[j - 1];
      if i > 0 {
        assert r[i] == s[i - 1];
      }
    }
  }

  /** The first pass is maximal, in spite of the splits that later scans make. */
  lemma {:induction false} WalkIsMaximal(s: seq<Tok>, id: nat)
    requires AllSane(s) && Walk(s, id).Some?
    ensures Maximal(Walk(s, id).value)
    decreases Weight(s)
  {
    if s != [] {
      var o := s[0];
      WeightHead(s);
      if !UnmatchedOpen(o) {
        WalkIsMaximal(s[1..], id);
        MaximalCons(o, Walk(s[1..], id).value);
      } else {
        ScanWeight(o, s[1..], id);
        match Scan(o, s[1..], id)
        case NotFound(tail) =>
          WalkIsMaximal(tail, id);
          FailedScanBlocks(o, s[1..], id);
          WalkKeepsBlocked(tail, id, Kind(o.ch, o.size));
          MaximalCons(o, Walk(tail, id).value);
        case Found(tail) =>
          WalkIsMaximal(tail, id + 1);
          MaximalCons(o.(id := id), Walk(tail, id + 1).value);
        case SplitOpen(size) =>
          WeightTwo(Fresh(true, o.ch, 3 - size), Fresh(true, o.ch, size), s[1..]);
          var s' := SplitOpener(o, size) + s[1..];
          WalkIsMaximal(s', id);
          MaximalCons(Disable(o), Walk(s', id).value);
      }
    }
  }

  // ---------------------------------------------------------------- greedy matching

  /** A token that the opener of pair `id` passes by: an unmatched closer that cannot close it,
      or a closer that an earlier opener has taken already. */
  predicate Spared(t: Tok, k: Kind, id: int) {
    && (UnmatchedClose(t) ==> t.size != 3 && Kind(t.ch, t.size) != k)
    && (MatchedClose(t) && Kind(t.ch, t.size) == k ==> t.id < id)
  }

  /** Only spared tokens lie in front of the closer of pair `id`. */
  predicate NearestCloser(s: seq<Tok>, k: Kind, id: int) {
    s != [] && ((MatchedClose(s[0]) && s[0].id == id) || (Spared(s[0], k, id) && NearestCloser(s[1..], k, id)))
  }

  predicate ClosersBelow(s: seq<Tok>, id: int) {
    forall i :: 0 <= i < |s| && MatchedClose(s[i]) ==> s[i].id < id
  }

  lemma NearestCons(t: Tok, s: seq<Tok>, k: Kind, id: int)
    ensures NearestCloser([t] + s, k, id) ==
              ((MatchedClose(t) && t.id == id) || (Spared(t, k, id) && NearestCloser(s, k, id)))
  {
    assert ([t] + s)[1..] == s;
  }

  lemma ClosersBelowCons(t: Tok, s: seq<Tok>, id: int)
    requires ClosersBelow(s, id) && (MatchedClose(t) ==> t.id < id)
    ensures ClosersBelow([t] + s, id)
  {
  }

  lemma GreedyStep(t: Tok, r: ScanResult, k: Kind, id: int)
    requires Spared(t, k, id) && (MatchedClose(t) ==> t.id < id)
    requires r.Found? ==> NearestCloser(r.tail, k, id) && ClosersBelow(r.tail, id + 1)
    requires r.NotFound? ==> ClosersBelow(r.tail, id)
    ensures r.Found? ==> NearestCloser([t] + r.tail, k, id) && ClosersBelow([t] + r.tail, id + 1)
    ensures r.NotFound? ==> ClosersBelow([t] + r.tail, id)
  {
    if r.Found? {
      NearestCons(t, r.tail, k, id);
    }
  }

  /** A scan that succeeds takes the nearest closer it can. */
  lemma {:induction false} ScanIsGreedy(o: Tok, s: seq<Tok>, id: nat)
    requires UnmatchedOpen(o) && Sane(o) && AllSane(s) && ClosersBelow(s, id)
    ensures match Scan(o, s, id)
            case Found(tail) => NearestCloser(tail, Kind(o.ch, o.size), id) && ClosersBelow(tail, id + 1)
            case NotFound(tail) => ClosersBelow(tail, id)
            case _ => true
    decreases Weight(s)
  {
    if s != [] {
      var t := s[0];
      var k := Kind(o.ch, o.size);
      WeightHead(s);
      if UnmatchedClose(t) && t.size == 3 && o.size != 3 {
        WeightTwo(Fresh(false, t.ch, 3 - o.size), Fresh(false, t.ch, o.size), s[1..]);
        var s' := SplitCloser(t, o.size) + s[1..];
        ScanIsGreedy(o, s', id);
        GreedyStep(Disable(t), Scan(o, s', id), k, id);
      } else if UnmatchedClose(t) && t.ch == o.ch && t.size == o.size {
        NearestCons(t.(id := id), s[1..], k, id);
        ClosersBelowCons(t.(id := id), s[1..], id + 1);
      } else if !UnmatchedClose(t) || o.size != 3 {
        ScanIsGreedy(o, s[1..], id);
        GreedyStep(t, Scan(o, s[1..], id), k, id);
      }
    }
  }

  lemma {:induction false} ScanKeepsNearest(o: Tok, s: seq<Tok>, id: nat, k: Kind, c: int)
    requires UnmatchedOpen(o) && Sane(o) && AllSane(s) && NearestCloser(s, k, c) && 0 <= c < id
    ensures match Scan(o, s, id)
            case Found(tail) => NearestCloser(tail, k, c)
            case NotFound(tail) => NearestCloser(tail, k, c)
            case _ => true
    decreases Weight(s)
  {
    var t := s[0];
    WeightHead(s);
    if UnmatchedClose(t) && t.ch == o.ch && t.size == o.size {
      NearestCons(t.(id := id), s[1..], k, c);
    } else if !UnmatchedClose(t) || o.size != 3 {
      if !(MatchedClose(t) && t.id == c) {
        ScanKeepsNearest(o, s[1..], id, k, c);
      }
      if Scan(o, s[1..], id).NotFound? || Scan(o, s[1..], id).Found? {
        NearestCons(t, Scan(o, s[1..], id).tail, k, c);
      }
    }
  }

  lemma {:induction false} WalkKeepsNearest(s: seq<Tok>, id: nat, k: Kind, c: int)
    requires AllSane(s) && Walk(s, id).Some? && NearestCloser(s, k, c) && 0 <= c < id
    ensures NearestCloser(Walk(s, id).value, k, c)
    decreases Weight(s)
  {
    var o := s[0];
    WeightHead(s);
    if !UnmatchedOpen(o) {
      if !(MatchedClose(o) && o.id == c) {
        WalkKeepsNearest(s[1..], id, k, c);
      }
      NearestCons(o, Walk(s[1..], id).value, k, c);
    } else {
      ScanWeight(o, s[1..], id);
      ScanKeepsNearest(o, s[1..], id, k, c);
      match Scan(o, s[1..], id)
      case NotFound(tail) =>
        WalkKeepsNearest(tail, id, k, c);
        NearestCons(o, Walk(tail, id).value, k, c);
      case Found(tail) =>
        WalkKeepsNearest(tail, id + 1, k, c);
        NearestCons(o.(id := id), Walk(tail, id + 1).value, k, c);
      case SplitOpen(size) =>
        WeightTwo(Fresh(true, o.ch, 3 - size), Fresh(true, o.ch, size), s[1..]);
        var s' := SplitOpener(o, size) + s[1..];
        assert s' == [s'[0]] + ([s'[1]] + s[1..]);
        NearestCons(s'[1], s[1..], k, c);
        NearestCons(s'[0], [s'[1]] + s[1..], k, c);
        WalkKeepsNearest(s', id, k, c);
        NearestCons(Disable(o), Walk(s', id).value, k, c);
    }
  }

  /** Every matched opener has the nearest closer that earlier openers left for it. */
  predicate Greedy(s: seq<Tok>) {
    s != [] ==> (MatchedOpen(s[0]) ==> NearestCloser(s[1..], Kind(s[0].ch, s[0].size), s[0].id)) && Greedy(s[1..])
  }

  lemma GreedyCons(t: Tok, s: seq<Tok>)
    ensures Greedy([t] + s) == ((MatchedOpen(t) ==> NearestCloser(s, Kind(t.ch, t.size), t.id)) && Greedy(s))
  {
    assert ([t] + s)[1..] == s;
  }

  lemma {:induction false} ScanOpensNothing(o: Tok, s: seq<Tok>, id: nat)
    requires UnmatchedOpen(o) && Sane(o) && AllSane(s) && NoMatchedOpen(s)
    ensures match Scan(o, s, id)
            case Found(tail) => NoMatchedOpen(tail)
            case NotFound(tail) => NoMatchedOpen(tail)
            case _ => true
    decreases Weight(s)
  {
    if s != [] {
      var t := s[0];
      WeightHead(s);
      if UnmatchedClose(t) && t.size == 3 && o.size != 3 {
        WeightTwo(Fresh(false, t.ch, 3 - o.size), Fresh(false, t.ch, o.size), s[1..]);
        ScanOpensNothing(o, SplitCloser(t, o.size) + s[1..], id);
      } else if !UnmatchedClose(t) || o.size != 3 {
        ScanOpensNothing(o, s[1..], id);
      }
    }
  }

  lemma {:induction false} WalkIsGreedy(s: seq<Tok>, id: nat)
    requires AllSane(s) && Walk(s, id).Some? && ClosersBelow(s, id) && NoMatchedOpen(s)
    ensures Greedy(Walk(s, id).value)
    decreases Weight(s)
  {
    if s != [] {
      var o := s[0];
      WeightHead(s);
      if !UnmatchedOpen(o) {
        WalkIsGreedy(s[1..], id);
        GreedyCons(o, Walk(s[1..], id).value);
      } else {
        ScanWeight(o, s[1..], id);
        ScanIsGreedy(o, s[1..], id);
        ScanOpensNothing(o, s[1..], id);
        match Scan(o, s[1..], id)
        case NotFound(tail) =>
          WalkIsGreedy(tail, id);
          GreedyCons(o, Walk(tail, id).value);
        case Found(tail) =>
          WalkIsGreedy(tail, id + 1);
          WalkKeepsNearest(tail, id + 1, Kind(o.ch, o.size), id);
          GreedyCons(o.(id := id), Walk(tail, id + 1).value);
        case SplitOpen(size) =>
          WeightTwo(Fresh(true, o.ch, 3 - size), Fresh(true, o.ch, size), s[1..]);
          var s' := SplitOpener(o, size) + s[1..];
          WalkIsGreedy(s', id);
          GreedyCons(Disable(o), Walk(s', id).value);
      }
    }
  }

  lemma {:induction false} NearestByPosition(s: seq<Tok>, k: Kind, id: int, j: int, m: int)
    requires NearestCloser(s, k, id)
    requires 0 <= m < j < |s| && forall n :: 0 <= n < j ==> !(MatchedClose(s[n]) && s[n].id == id)
    ensures Spared(s[m], k, id)
    decreases |s|
  {
    assert !(MatchedClose(s[0]) && s[0].id == id);
    if m > 0 {
      assert forall n :: 0 <= n < j - 1 ==> s[1..][n] == s[n + 1];
      NearestByPosition(s[1..], k, id, j - 1, m - 1);
    }
  }

  lemma {:induction false} GreedyFrom(s: seq<Tok>, i: nat)
    requires Greedy(s) && i < |s| && MatchedOpen(s[i])
    ensures NearestCloser(s[i + 1..], Kind(s[i].ch, s[i].size), s[i].id)
    decreases |s|
  {
    if i > 0 {
      GreedyFrom(s[1..], i - 1);
      assert s[1..][i..] == s[i + 1..];
    }
  }
}
