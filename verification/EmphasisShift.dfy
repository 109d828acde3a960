/** Pair ids are names only: a pass that starts with a higher id does the same under higher names, and
    the written text does not show them. */
module EmphasisShift {
  import opened Wrappers
  import opened EmphasisTokens
  import opened EmphasisMatching
  import opened EmphasisNesting
  import opened EmphasisHtml

  /** A token whose pair id is higher by `k`. */
  function Up(t: Tok, k: nat): Tok {
    if t.Marker? && t.id >= 0 then t.(id := t.id + k) else t
  }

  function UpAll(s: seq<Tok>, k: nat): (r: seq<Tok>)
    ensures |r| == |s|
  {
    seq(|s|, i requires 0 <= i < |s| => Up(s[i], k))
  }

  lemma UpCons(t: Tok, s: seq<Tok>, k: nat)
    ensures UpAll([t] + s, k) == [Up(t, k)] + UpAll(s, k)
  {
  }

  lemma UpJoin(a: seq<Tok>, b: seq<Tok>, k: nat)
    ensures UpAll(a + b, k) == UpAll(a, k) + UpAll(b, k)
  {
  }

  lemma UpHead(s: seq<Tok>, k: nat)
    requires s != []
    ensures UpAll(s, k)[0] == Up(s[0], k) && UpAll(s, k)[1..] == UpAll(s[1..], k)
  {
  }

  lemma UpSane(s: seq<Tok>, k: nat)
    requires AllSane(s)
    ensures AllSane(UpAll(s, k))
  {
  }

  lemma UntouchedUp(s: seq<Tok>, k: nat)
    requires Untouched(s)
    ensures UpAll(s, k) == s
  {
  }

  // ---------------------------------------------------------------- the first pass

  function UpScan(r: ScanResult, k: nat): ScanResult {
    match r
    case NotFound(tail) => NotFound(UpAll(tail, k))
    case Found(tail) => Found(UpAll(tail, k))
    case _ => r
  }

  function UpWalk(r: Option<seq<Tok>>, k: nat): Option<seq<Tok>> {
    if r.None? then None else Some(UpAll(r.value, k))
  }

  lemma ThenTailUp(t: Tok, r: ScanResult, k: nat)
    ensures ThenTail(Up(t, k), UpScan(r, k)) == UpScan(ThenTail(t, r), k)
  {
    match r
    case NotFound(tail) => UpCons(t, tail, k);
    case Found(tail) => UpCons(t, tail, k);
    case _ =>
  }

  lemma {:induction false} ScanUp(o: Tok, s: seq<Tok>, id: nat, k: nat)
    requires UnmatchedOpen(o) && Sane(o) && AllSane(s)
    ensures AllSane(UpAll(s, k)) && Scan(o, UpAll(s, k), id + k) == UpScan(Scan(o, s, id), k)
    decreases Weight(s)
  {
    UpSane(s, k);
    if s == [] {
      assert UpAll([], k) == [];
    } else {
      var t := s[0];
      WeightHead(s);
      UpHead(s, k);
      if UnmatchedClose(t) && t.size == 3 && o.size != 3 {
        var pieces := SplitCloser(t, o.size);
        WeightTwo(Fresh(false, t.ch, 3 - o.size), Fresh(false, t.ch, o.size), s[1..]);
        ScanUp(o, pieces + s[1..], id, k);
        UpJoin(pieces, s[1..], k);
        assert UpAll(pieces, k) == pieces;
        ThenTailUp(Disable(t), Scan(o, pieces + s[1..], id), k);
      } else if UnmatchedClose(t) && t.ch == o.ch && t.size == o.size {
        UpCons(t.(id := id), s[1..], k);
      } else if !UnmatchedClose(t) || o.size != 3 {
        ScanUp(o, s[1..], id, k);
        ThenTailUp(t, Scan(o, s[1..], id), k);
      }
    }
  }

  lemma ThenWalkUp(t: Tok, r: Option<seq<Tok>>, k: nat)
    ensures ThenWalk(Up(t, k), UpWalk(r, k)) == UpWalk(ThenWalk(t, r), k)
  {
    if r.Some? {
      UpCons(t, r.value, k);
    }
  }

  lemma SplitUp(o: Tok, size: nat, s: seq<Tok>, k: nat)
    requires o.Marker? && size <= 3
    ensures UpAll(SplitOpener(o, size) + s, k) == SplitOpener(o, size) + UpAll(s, k)
  {
    UpJoin(SplitOpener(o, size), s, k);
    assert UpAll(SplitOpener(o, size), k) == SplitOpener(o, size);
  }

  /** The pass on `s` comes to `w` behind the token `o`. */
  predicate Steps(s: seq<Tok>, id: nat, o: Tok, w: Option<seq<Tok>>)
    requires AllSane(s)
  {
    Walk(s, id) == ThenWalk(o, w)
  }

  lemma FoundStep(o: Tok, s: seq<Tok>, tail: seq<Tok>, id: nat)
    requires UnmatchedOpen(o) && Sane(o) && AllSane(s) && Scan(o, s, id) == Found(tail)
    ensures AllSane(tail) && AllSane([o] + s) && Steps([o] + s, id, o.(id := id), Walk(tail, id + 1))
  {
    ScanWeight(o, s, id);
    assert ([o] + s)[1..] == s;
  }

  lemma NotFoundStep(o: Tok, s: seq<Tok>, tail: seq<Tok>, id: nat)
    requires UnmatchedOpen(o) && Sane(o) && AllSane(s) && Scan(o, s, id) == NotFound(tail)
    ensures AllSane(tail) && AllSane([o] + s) && Steps([o] + s, id, o, Walk(tail, id))
  {
    ScanWeight(o, s, id);
    assert ([o] + s)[1..] == s;
  }

  lemma SplitStep(o: Tok, s: seq<Tok>, size: nat, id: nat)
    requires UnmatchedOpen(o) && Sane(o) && AllSane(s) && Scan(o, s, id) == SplitOpen(size)
    ensures 1 <= size <= 2 && AllSane(SplitOpener(o, size) + s) && AllSane([o] + s)
    ensures Steps([o] + s, id, Disable(o), Walk(SplitOpener(o, size) + s, id))
  {
    ScanWeight(o, s, id);
    assert ([o] + s)[1..] == s;
  }

  lemma MixedStep(o: Tok, s: seq<Tok>, id: nat)
    requires UnmatchedOpen(o) && Sane(o) && AllSane(s) && Scan(o, s, id).Mixed?
    ensures AllSane([o] + s) && Walk([o] + s, id).None?
  {
    assert ([o] + s)[1..] == s;
  }

  lemma PassStep(o: Tok, s: seq<Tok>, id: nat)
    requires !UnmatchedOpen(o) && Sane(o) && AllSane(s)
    ensures AllSane([o] + s) && Steps([o] + s, id, o, Walk(s, id))
  {
    assert ([o] + s)[1..] == s;
  }

  lemma StepUp(s: seq<Tok>, id: nat, o: Tok, w: Option<seq<Tok>>, k: nat, all: seq<Tok>)
    requires AllSane(s) && AllSane(all)
    requires Steps(s, id, o, w) && Steps(all, id + k, Up(o, k), UpWalk(w, k))
    ensures Walk(all, id + k) == UpWalk(Walk(s, id), k)
  {
    ThenWalkUp(o, w, k);
  }

  lemma {:induction false} OpenerUp(o: Tok, s: seq<Tok>, id: nat, k: nat)
    requires UnmatchedOpen(o) && Sane(o) && AllSane(s)
    ensures AllSane(UpAll(s, k)) && AllSane([o] + s) && AllSane([o] + UpAll(s, k))
    ensures Walk([o] + UpAll(s, k), id + k) == UpWalk(Walk([o] + s, id), k)
    decreases Weight([o] + s), 0
  {
    WeightCons(o, s);
    ScanWeight(o, s, id);
    ScanUp(o, s, id, k);
    var all := [o] + UpAll(s, k);
    match Scan(o, s, id)
    case NotFound(tail) =>
      WalkUp(tail, id, k);
      NotFoundStep(o, s, tail, id);
      NotFoundStep(o, UpAll(s, k), UpAll(tail, k), id + k);
      StepUp([o] + s, id, o, Walk(tail, id), k, all);
    case Found(tail) =>
      WalkUp(tail, id + 1, k);
      FoundStep(o, s, tail, id);
      FoundStep(o, UpAll(s, k), UpAll(tail, k), id + k);
      StepUp([o] + s, id, o.(id := id), Walk(tail, id + 1), k, all);
    case SplitOpen(size) =>
      WeightTwo(Fresh(true, o.ch, 3 - size), Fresh(true, o.ch, size), s);
      SplitUp(o, size, s, k);
      WalkUp(SplitOpener(o, size) + s, id, k);
      SplitStep(o, s, size, id);
      SplitStep(o, UpAll(s, k), size, id + k);
      StepUp([o] + s, id, Disable(o), Walk(SplitOpener(o, size) + s, id), k, all);
    case Mixed =>
      MixedStep(o, s, id);
      MixedStep(o, UpAll(s, k), id + k);
  }

  /** Starting with a higher id changes the first pass in nothing but the ids. */
  lemma {:induction false} WalkUp(s: seq<Tok>, id: nat, k: nat)
    requires AllSane(s)
    ensures AllSane(UpAll(s, k)) && Walk(UpAll(s, k), id + k) == UpWalk(Walk(s, id), k)
    decreases Weight(s), 1
  {
    UpSane(s, k);
    if s == [] {
      assert UpAll([], k) == [];
    } else {
      var o, rest := s[0], s[1..];
      WeightHead(s);
      UpHead(s, k);
      assert s == [o] + rest && UpAll(s, k) == [Up(o, k)] + UpAll(rest, k);
      if UnmatchedOpen(o) {
        OpenerUp(o, rest, id, k);
      } else {
        WalkUp(rest, id, k);
        PassStep(o, rest, id);
        PassStep(Up(o, k), UpAll(rest, k), id + k);
        StepUp(s, id, o, Walk(rest, id), k, UpAll(s, k));
      }
    }
  }

  // ---------------------------------------------------------------- the second pass

  function UpStack(st: IdStack, k: nat): IdStack {
    match st
    case Empty => Empty
    case Push(id, below) => Push(id + k, UpStack(below, k))
  }

  function UpIds(ids: set<int>, k: nat): set<int> {
    set c | c in ids :: c + k
  }

  lemma InUpIds(c: int, ids: set<int>, k: nat)
    ensures c + k in UpIds(ids, k) <==> c in ids
  {
  }

  lemma {:induction false} CleanUp(st: IdStack, dead: set<int>, k: nat)
    ensures Clean(UpStack(st, k), UpIds(dead, k)) == UpStack(Clean(st, dead), k)
    decreases st
  {
    if st.Push? {
      InUpIds(st.id, dead, k);
      CleanUp(st.below, dead, k);
    }
  }

  lemma MoreUpIds(ids: set<int>, c: int, k: nat)
    ensures UpIds(ids + {c}, k) == UpIds(ids, k) + {c + k}
  {
  }

  lemma {:induction false} SecondUp(s: seq<Tok>, st: IdStack, dead: set<int>, k: nat)
    ensures Second(UpAll(s, k), UpStack(st, k), UpIds(dead, k)) == UpIds(Second(s, st, dead), k)
    decreases |s|
  {
    if s != [] {
      var t := s[0];
      UpHead(s, k);
      if MatchedOpen(t) {
        SecondUp(s[1..], Push(t.id, st), dead, k);
      } else if MatchedClose(t) {
        if st.Push? && st.id == t.id {
          CleanUp(st.below, dead, k);
          SecondUp(s[1..], Clean(st.below, dead), dead, k);
        } else {
          MoreUpIds(dead, t.id, k);
          SecondUp(s[1..], st, dead + {t.id}, k);
        }
      } else {
        SecondUp(s[1..], st, dead, k);
      }
    }
  }

  lemma DropUp(s: seq<Tok>, dead: set<int>, k: nat)
    ensures Drop(UpAll(s, k), UpIds(dead, k)) == UpAll(Drop(s, dead), k)
  {
    forall i | 0 <= i < |s| ensures DropTok(Up(s[i], k), UpIds(dead, k)) == Up(DropTok(s[i], dead), k) {
      if s[i].Marker? {
        InUpIds(s[i].id, dead, k);
      }
    }
  }

  lemma UnnestUp(s: seq<Tok>, k: nat)
    ensures Unnest(UpAll(s, k)) == UpAll(Unnest(s), k)
  {
    SecondUp(s, Empty, {}, k);
    assert UpIds({}, k) == {};
    DropUp(s, Second(s, Empty, {}), k);
  }

  // ---------------------------------------------------------------- the written text

  lemma {:induction false} HtmlUp(s: seq<Tok>, k: nat)
    ensures HtmlOf(UpAll(s, k)) == HtmlOf(s)
    decreases |s|
  {
    if s != [] {
      UpHead(s, k);
      HtmlUp(s[1..], k);
    }
  }

  /** An untouched list that is resolved under higher ids is written as if resolved alone. */
  lemma ResolvedUp(s: seq<Tok>, k: nat)
    requires Untouched(s) && AllSane(s)
    ensures Walk(s, k).Some? <==> Walk(s, 0).Some?
    ensures Walk(s, 0).Some? ==>
              Unnest(Walk(s, k).value) == UpAll(Resolve(s), k) && HtmlOf(UpAll(Resolve(s), k)) == HtmlOf(Resolve(s))
  {
    UntouchedUp(s, k);
    WalkUp(s, 0, k);
    if Walk(s, 0).Some? {
      UnnestUp(Walk(s, 0).value, k);
      HtmlUp(Resolve(s), k);
    }
  }

  lemma {:induction false} HtmlJoin(a: seq<Tok>, b: seq<Tok>)
    ensures HtmlOf(a + b) == HtmlOf(a) + HtmlOf(b)
    decreases |a|
  {
    if a == [] {
      assert a + b == b;
    } else {
      assert (a + b)[0] == a[0] && (a + b)[1..] == a[1..] + b;
      HtmlJoin(a[1..], b);
    }
  }
}
