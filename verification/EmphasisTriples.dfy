/** What a marker of size 3 is split for: two markers of the other kind whose sizes add up to 3. Both
    of them find their partners, the two pairs nest, and what stands behind is not disturbed. */
module EmphasisTriples {
  import opened Wrappers
  import opened EmphasisTokens
  import opened EmphasisMatching
  import opened EmphasisPairing
  import opened EmphasisNesting
  import opened EmphasisHtml
  import opened EmphasisTermination
  import opened EmphasisShift

  /** Texts and spent markers: nothing for either pass to look at. */
  predicate Idle(s: seq<Tok>) {
    forall i :: 0 <= i < |s| ==>
      !UnmatchedOpen(s[i]) && !UnmatchedClose(s[i]) && !MatchedOpen(s[i]) && !MatchedClose(s[i])
  }

  // ---------------------------------------------------------------- steps of the first pass

  lemma ScanPast(o: Tok, t: Tok, s: seq<Tok>, id: nat)
    requires UnmatchedOpen(o) && Sane(o) && AllSane([t] + s)
    requires UnmatchedClose(t) ==> t.size != 3 && o.size != 3 && (t.ch != o.ch || t.size != o.size)
    ensures AllSane(s) && Scan(o, [t] + s, id) == ThenTail(t, Scan(o, s, id))
  {
    assert ([t] + s)[1..] == s;
  }

  lemma ScanHit(o: Tok, t: Tok, s: seq<Tok>, id: nat)
    requires UnmatchedOpen(o) && Sane(o) && AllSane([t] + s)
    requires UnmatchedClose(t) && t.ch == o.ch && t.size == o.size
    ensures Scan(o, [t] + s, id) == Found([t.(id := id)] + s)
  {
    assert ([t] + s)[1..] == s;
  }

  lemma ScanSplits(o: Tok, t: Tok, s: seq<Tok>, id: nat)
    requires UnmatchedOpen(o) && Sane(o) && AllSane([t] + s) && UnmatchedClose(t) && t.size == 3 && o.size != 3
    ensures AllSane(SplitCloser(t, o.size) + s)
    ensures Scan(o, [t] + s, id) == ThenTail(Disable(t), Scan(o, SplitCloser(t, o.size) + s, id))
  {
    assert ([t] + s)[1..] == s;
  }

  lemma {:induction false} ScanIdle(o: Tok, mid: seq<Tok>, s: seq<Tok>, id: nat, tail: seq<Tok>)
    requires UnmatchedOpen(o) && Sane(o) && Idle(mid) && AllSane(mid) && AllSane(s)
    requires Scan(o, s, id) == Found(tail)
    ensures AllSane(mid + s) && Scan(o, mid + s, id) == Found(mid + tail)
    decreases |mid|
  {
    if mid == [] {
      assert mid + s == s && mid + tail == tail;
    } else {
      var t, rest := mid[0], mid[1..];
      ScanIdle(o, rest, s, id, tail);
      assert mid + s == [t] + (rest + s) && mid + tail == [t] + (rest + tail);
      ScanPast(o, t, rest + s, id);
    }
  }

  lemma {:induction false} ScanIdleSplits(o: Tok, mid: seq<Tok>, t: Tok, s: seq<Tok>, id: nat)
    requires UnmatchedOpen(o) && Sane(o) && o.size == 3 && Idle(mid) && AllSane(mid) && AllSane([t] + s)
    requires UnmatchedClose(t) && t.size != 3
    ensures AllSane(mid + ([t] + s)) && Scan(o, mid + ([t] + s), id) == SplitOpen(t.size)
    decreases |mid|
  {
    if mid == [] {
      assert mid + ([t] + s) == [t] + s && ([t] + s)[0] == t;
    } else {
      ScanIdleSplits(o, mid[1..], t, s, id);
      assert mid + ([t] + s) == [mid[0]] + (mid[1..] + ([t] + s));
      ScanPast(o, mid[0], mid[1..] + ([t] + s), id);
    }
  }

  /** Tokens put in front of what a pass leaves. */
  function Behind(pre: seq<Tok>, r: Option<seq<Tok>>): Option<seq<Tok>> {
    if r.None? then None else Some(pre + r.value)
  }

  lemma {:induction false} WalkIdle(pre: seq<Tok>, s: seq<Tok>, id: nat)
    requires (forall i :: 0 <= i < |pre| ==> !UnmatchedOpen(pre[i])) && AllSane(pre) && AllSane(s)
    ensures AllSane(pre + s) && Walk(pre + s, id) == Behind(pre, Walk(s, id))
    decreases |pre|
  {
    if pre == [] {
      assert pre + s == s;
      assert forall w: seq<Tok> :: pre + w == w;
    } else {
      var t, rest := pre[0], pre[1..];
      WalkIdle(rest, s, id);
      var all := pre + s;
      assert all[0] == t && all[1..] == rest + s;
      assert forall w: seq<Tok> :: pre + w == [t] + (rest + w);
    }
  }

  lemma WalkFinds(o: Tok, s: seq<Tok>, tail: seq<Tok>, id: nat)
    requires UnmatchedOpen(o) && Sane(o) && AllSane(s) && Scan(o, s, id) == Found(tail)
    ensures AllSane(tail) && AllSane([o] + s) && Walk([o] + s, id) == Behind([o.(id := id)], Walk(tail, id + 1))
  {
    assert ([o] + s)[1..] == s;
    ScanWeight(o, s, id);
  }

  lemma WalkSplits(o: Tok, s: seq<Tok>, size: nat, id: nat)
    requires UnmatchedOpen(o) && Sane(o) && AllSane(s) && Scan(o, s, id) == SplitOpen(size)
    ensures 1 <= size <= 2 && AllSane(SplitOpener(o, size) + s) && AllSane([o] + s)
    ensures Walk([o] + s, id) == Behind([Disable(o)], Walk(SplitOpener(o, size) + s, id))
  {
    assert ([o] + s)[1..] == s;
    ScanWeight(o, s, id);
  }

  // ---------------------------------------------------------------- two pairs, one within the other

  /** A pair of `a` and `a'` around a pair of `b` and `b'`, with a rest behind them. */
  function Nest(pre: seq<Tok>, a: Tok, m1: seq<Tok>, b: Tok, m2: seq<Tok>, b': Tok, m3: seq<Tok>, a': Tok,
                rest: seq<Tok>): seq<Tok> {
    pre + ([a] + (m1 + ([b] + (m2 + ([b'] + (m3 + ([a'] + rest)))))))
  }

  lemma NestJoins(pre: seq<Tok>, a: Tok, m1: seq<Tok>, b: Tok, m2: seq<Tok>, b': Tok, m3: seq<Tok>, a': Tok,
                  rest: seq<Tok>)
    ensures Nest(pre, a, m1, b, m2, b', m3, a', rest) == Nest(pre, a, m1, b, m2, b', m3, a', []) + rest
  {
  }

  lemma {:induction false} NestedPast(m: seq<Tok>, s: seq<Tok>, st: IdStack)
    requires Idle(m)
    ensures WellNested(m + s, st) == WellNested(s, st)
    decreases |m|
  {
    if m == [] {
      assert m + s == s;
    } else {
      assert (m + s)[0] == m[0] && (m + s)[1..] == m[1..] + s;
      NestedPast(m[1..], s, st);
    }
  }

  lemma NestedOpens(t: Tok, s: seq<Tok>, st: IdStack)
    requires MatchedOpen(t)
    ensures WellNested([t] + s, st) == WellNested(s, Push(t.id, st))
  {
    assert ([t] + s)[1..] == s;
  }

  lemma NestedCloses(t: Tok, s: seq<Tok>, st: IdStack)
    requires MatchedClose(t)
    ensures WellNested([t] + s, Push(t.id, st)) == WellNested(s, st)
  {
    assert ([t] + s)[1..] == s;
  }

  lemma NestIsNested(pre: seq<Tok>, a: Tok, m1: seq<Tok>, b: Tok, m2: seq<Tok>, b': Tok, m3: seq<Tok>, a': Tok)
    requires Idle(pre) && Idle(m1) && Idle(m2) && Idle(m3)
    requires MatchedOpen(a) && MatchedClose(a') && a.id == a'.id && MatchedOpen(b) && MatchedClose(b') && b.id == b'.id
    ensures WellNested(Nest(pre, a, m1, b, m2, b', m3, a', []), Empty)
  {
    var one := Push(a.id, Empty);
    var two := Push(b.id, one);
    var s5 := [a'] + [];
    var s4 := [b'] + (m3 + s5);
    var s2 := [b] + (m2 + s4);
    NestedCloses(a', [], Empty);
    NestedPast(m3, s5, one);
    NestedCloses(b', m3 + s5, one);
    NestedPast(m2, s4, two);
    NestedOpens(b, m2 + s4, one);
    NestedPast(m1, s2, one);
    NestedOpens(a, m1 + s2, Empty);
    NestedPast(pre, [a] + (m1 + s2), Empty);
  }

  lemma {:induction false} SecondPastNested(f: seq<Tok>, s: seq<Tok>, st: IdStack)
    requires WellNested(f, st)
    ensures Second(f + s, st, {}) == Second(s, Empty, {})
    decreases |f|
  {
    if f == [] {
      assert f + s == s;
    } else {
      assert (f + s)[0] == f[0] && (f + s)[1..] == f[1..] + s;
      var st' := if MatchedOpen(f[0]) then Push(f[0].id, st) else if MatchedClose(f[0]) then st.below else st;
      SecondPastNested(f[1..], s, st');
    }
  }

  lemma UnmatchedAreAhead(s: seq<Tok>, least: int)
    requires Paired(s, map[]) && Ascending(s, least)
    ensures forall c :: c in Second(s, Empty, {}) ==> c >= least
  {
    var none: map<int, Kind> := map[];
    assert none.Keys == {};
    CrossedAreAhead(s, none, least);
    SecondIsCrossed(s, Empty, {}, none, least);
  }

  lemma DropBehind(f: seq<Tok>, s: seq<Tok>, dead: set<int>)
    requires forall i :: 0 <= i < |f| && f[i].Marker? ==> f[i].id !in dead
    ensures Drop(f + s, dead) == f + Drop(s, dead)
  {
    var all := f + s;
    forall i | 0 <= i < |all| ensures DropTok(all[i], dead) == (f + Drop(s, dead))[i] {
      if i < |f| { assert all[i] == f[i]; } else { assert all[i] == s[i - |f|]; }
    }
  }

  /** The second pass leaves nested pairs at the front of a list alone, and treats what stands behind
      them as if they were not there. */
  lemma NestedFrontKept(f: seq<Tok>, s: seq<Tok>, least: int)
    requires WellNested(f, Empty) && (forall i :: 0 <= i < |f| && f[i].Marker? ==> f[i].id < least)
    requires Paired(s, map[]) && Ascending(s, least)
    ensures Unnest(f + s) == f + Unnest(s)
  {
    SecondPastNested(f, s, Empty);
    UnmatchedAreAhead(s, least);
    DropBehind(f, s, Second(s, Empty, {}));
  }

  lemma NestIds(pre: seq<Tok>, a: Tok, m1: seq<Tok>, b: Tok, m2: seq<Tok>, b': Tok, m3: seq<Tok>, a': Tok)
    requires Idle(pre) && Idle(m1) && Idle(m2) && Idle(m3)
    requires a.Marker? && a'.Marker? && b.Marker? && b'.Marker? && a.id < 2 && a'.id < 2 && b.id < 2 && b'.id < 2
    ensures var f := Nest(pre, a, m1, b, m2, b', m3, a', []);
            forall i :: 0 <= i < |f| && f[i].Marker? ==> f[i].id < 2
  {
    var f := Nest(pre, a, m1, b, m2, b', m3, a', []);
    forall t | t in f && t.Marker? ensures t.id < 2 {
      assert t in pre || t == a || t in m1 || t == b || t in m2 || t == b' || t in m3 || t == a';
    }
  }

  /** Both pairs of a nest survive the second pass, whatever it does behind them. */
  lemma NestKept(pre: seq<Tok>, a: Tok, m1: seq<Tok>, b: Tok, m2: seq<Tok>, b': Tok, m3: seq<Tok>, a': Tok,
                 post: seq<Tok>)
    requires Idle(pre) && Idle(m1) && Idle(m2) && Idle(m3)
    requires MatchedOpen(a) && MatchedClose(a') && a.id == a'.id == 0 && MatchedOpen(b) && MatchedClose(b') &&
             b.id == b'.id == 1
    requires Untouched(post) && AllSane(post) && Walk(post, 2).Some?
    ensures var w := Walk(post, 2).value;
            Unnest(Nest(pre, a, m1, b, m2, b', m3, a', w)) == Nest(pre, a, m1, b, m2, b', m3, a', Unnest(w))
  {
    var w, f := Walk(post, 2).value, Nest(pre, a, m1, b, m2, b', m3, a', []);
    UntouchedIsUnpaired(post);
    WalkPairs(post, 2, map[]);
    NestIsNested(pre, a, m1, b, m2, b', m3, a');
    NestIds(pre, a, m1, b, m2, b', m3, a');
    NestedFrontKept(f, w, 2);
    NestJoins(pre, a, m1, b, m2, b', m3, a', w);
    NestJoins(pre, a, m1, b, m2, b', m3, a', Unnest(w));
  }

  lemma TokenWritten(t: Tok, s: seq<Tok>)
    ensures HtmlOf([t] + s) == Html(t) + HtmlOf(s)
  {
    assert ([t] + s)[1..] == s;
  }

  lemma NoMore(s: string)
    ensures s + "" == s
  {
  }

  /** What is written for a nest: the inner pair within the outer one. */
  lemma NestWritten(pre: seq<Tok>, a: Tok, m1: seq<Tok>, b: Tok, m2: seq<Tok>, b': Tok, m3: seq<Tok>, a': Tok)
    ensures HtmlOf(Nest(pre, a, m1, b, m2, b', m3, a', [])) ==
            HtmlOf(pre) + (Html(a) + (HtmlOf(m1) + (Html(b) + (HtmlOf(m2) + (Html(b') + (HtmlOf(m3) + Html(a')))))))
  {
    var s7 := [a'] + [];
    var s5 := [b'] + (m3 + s7);
    var s3 := [b] + (m2 + s5);
    TokenWritten(a', []);
    NoMore(Html(a'));
    HtmlJoin(m3, s7);
    TokenWritten(b', m3 + s7);
    HtmlJoin(m2, s5);
    TokenWritten(b, m2 + s5);
    HtmlJoin(m1, s3);
    TokenWritten(a, m1 + s3);
    HtmlJoin(pre, [a] + (m1 + s3));
  }

  /** A list that resolves to a closed front and what a pass from id `k` on makes of the rest: the rest
      is resolved, and written, as if it stood alone. */
  lemma RestAlone(s: seq<Tok>, front: seq<Tok>, post: seq<Tok>, k: nat)
    requires AllSane(s) && Untouched(post) && AllSane(post)
    requires Walk(s, 0).Some? <==> Walk(post, k).Some?
    requires Walk(s, 0).Some? ==> Resolve(s) == front + Unnest(Walk(post, k).value)
    ensures (Ends(s) <==> Ends(post)) && (Walk(s, 0).Some? <==> Walk(post, 0).Some?)
    ensures Walk(s, 0).Some? ==>
              Resolve(s) == front + UpAll(Resolve(post), k) &&
                  HtmlOf(Resolve(s)) == HtmlOf(front) + HtmlOf(Resolve(post))
  {
    EndsWithWalk(s);
    EndsWithWalk(post);
    ResolvedUp(post, k);
    if Walk(s, 0).Some? {
      HtmlJoin(front, UpAll(Resolve(post), k));
    }
  }

  // ---------------------------------------------------------------- a closer of size 3

  /** A marker of pair `id`. */
  function InPair(open: bool, ch: char, size: nat, id: int): Tok {
    Marker(open, ch, size, id, false, false)
  }

  /** The first opener splits the closer so that its own piece lies behind the piece of the other. */
  lemma OuterFinds(ch: char, a: nat, mid1: seq<Tok>, mid2: seq<Tok>, post: seq<Tok>)
    requires 1 <= a <= 2 && Idle(mid1) && Idle(mid2) && AllSane(mid1) && AllSane(mid2) && AllSane(post)
    ensures var o, p, c := Fresh(true, ch, a), Fresh(true, ch, 3 - a), Fresh(false, ch, 3);
            var s := mid1 + ([p] + (mid2 + ([c] + post)));
      && AllSane(s)
      && Scan(o, s, 0) == Found(
           mid1 + ([p] + (mid2 + ([Disable(c)] + ([Fresh(false, ch, 3 - a)] + ([InPair(false, ch, a, 0)] + post))))))
  {
    var o, p, c := Fresh(true, ch, a), Fresh(true, ch, 3 - a), Fresh(false, ch, 3);
    var c1, c2 := Fresh(false, ch, 3 - a), Fresh(false, ch, a);
    ScanHit(o, c2, post, 0);
    ScanPast(o, c1, [c2] + post, 0);
    assert SplitCloser(c, a) + post == [c1] + ([c2] + post);
    ScanSplits(o, c, post, 0);
    var tail := [Disable(c)] + ([c1] + ([InPair(false, ch, a, 0)] + post));
    ScanIdle(o, mid2, [c] + post, 0, tail);
    ScanPast(o, p, mid2 + ([c] + post), 0);
    ScanIdle(o, mid1, [p] + (mid2 + ([c] + post)), 0, [p] + (mid2 + tail));
  }

  /** The other opener then finds its piece. */
  lemma InnerFinds(p: Tok, mid: seq<Tok>, c: Tok, more: seq<Tok>, post: seq<Tok>, id: nat)
    requires UnmatchedOpen(p) && Sane(p) && UnmatchedClose(c) && Sane(c) && p.ch == c.ch && p.size == c.size
    requires Idle(mid) && AllSane(mid) && AllSane(post) && AllSane(more)
    requires forall i :: 0 <= i < |more| ==> !UnmatchedOpen(more[i])
    ensures var s := [p] + (mid + ([c] + (more + post)));
      && AllSane(s)
      && Walk(s, id) == Behind([p.(id := id)] + (mid + ([c.(id := id)] + more)), Walk(post, id + 1))
  {
    ScanHit(p, c, more + post, id);
    ScanIdle(p, mid, [c] + (more + post), id, [c.(id := id)] + (more + post));
    WalkFinds(p, mid + ([c] + (more + post)), mid + ([c.(id := id)] + (more + post)), id);
    var past := mid + ([c.(id := id)] + more);
    assert mid + ([c.(id := id)] + (more + post)) == past + post;
    WalkIdle(past, post, id + 1);
    assert forall w: seq<Tok> :: [p.(id := id)] + (past + w) == ([p.(id := id)] + past) + w;
  }

  lemma TwoBehind(a: seq<Tok>, b: seq<Tok>, r: Option<seq<Tok>>)
    ensures Behind(a, Behind(b, r)) == Behind(a + b, r)
  {
    if r.Some? {
      assert a + (b + r.value) == (a + b) + r.value;
    }
  }

  /** A nest whose inner closer stands right in front of the outer one. */
  lemma NestOf(pre: seq<Tok>, a: Tok, m1: seq<Tok>, b: Tok, m2: seq<Tok>, b': Tok, a': Tok, w: seq<Tok>)
    ensures (pre + ([a] + (m1 + ([b] + (m2 + ([b'] + [a'])))))) + w == Nest(pre, a, m1, b, m2, b', [], a', w)
  {
    assert [] + ([a'] + w) == [a'] + w;
  }

  /** The first pass on two openers and a closer of size 3. */
  lemma TwoOpenersWalk(ch: char, a: nat, mid1: seq<Tok>, mid2: seq<Tok>, post: seq<Tok>)
    requires 1 <= a <= 2 && Idle(mid1) && Idle(mid2) && AllSane(mid1) && AllSane(mid2) && AllSane(post)
    ensures var o, p, c := Fresh(true, ch, a), Fresh(true, ch, 3 - a), Fresh(false, ch, 3);
            var s := [o] + (mid1 + ([p] + (mid2 + ([c] + post))));
            var inner := [InPair(true, ch, 3 - a, 1)]
                         + ((mid2 + [Disable(c)]) + ([InPair(false, ch, 3 - a, 1)] + [InPair(false, ch, a, 0)]));
      && AllSane(s)
      && Walk(s, 0) == Behind([InPair(true, ch, a, 0)] + (mid1 + inner), Walk(post, 2))
  {
    var o, p, c := Fresh(true, ch, a), Fresh(true, ch, 3 - a), Fresh(false, ch, 3);
    var d, c1, c2 := Disable(c), Fresh(false, ch, 3 - a), InPair(false, ch, a, 0);
    var ahead := mid1 + ([p] + (mid2 + ([c] + post)));
    var inner := [p] + ((mid2 + [d]) + ([c1] + ([c2] + post)));
    OuterFinds(ch, a, mid1, mid2, post);
    assert [p] + (mid2 + ([d] + ([c1] + ([c2] + post)))) == inner;
    WalkFinds(o, ahead, mid1 + inner, 0);
    InnerFinds(p, mid2 + [d], c1, [c2], post, 1);
    WalkIdle(mid1, inner, 1);
    var found := [InPair(true, ch, 3 - a, 1)] + ((mid2 + [d]) + ([InPair(false, ch, 3 - a, 1)] + [c2]));
    TwoBehind(mid1, found, Walk(post, 2));
    TwoBehind([InPair(true, ch, a, 0)], mid1 + found, Walk(post, 2));
  }

  /** What the two openers and the pieces of the closer resolve to. */
  function OpenersNest(ch: char, a: nat, pre: seq<Tok>, mid1: seq<Tok>, mid2: seq<Tok>): seq<Tok>
    requires a <= 3
  {
    Nest(pre, InPair(true, ch, a, 0), mid1, InPair(true, ch, 3 - a, 1), mid2 + [Disable(Fresh(false, ch, 3))],
         InPair(false, ch, 3 - a, 1), [], InPair(false, ch, a, 0), [])
  }

  lemma OpenersResolved(ch: char, a: nat, pre: seq<Tok>, mid1: seq<Tok>, mid2: seq<Tok>, post: seq<Tok>)
    requires 1 <= a <= 2 && Idle(pre) && Idle(mid1) && Idle(mid2) && AllSane(pre) && AllSane(mid1) && AllSane(mid2)
    requires Untouched(post) && AllSane(post)
    ensures var o, p, c := Fresh(true, ch, a), Fresh(true, ch, 3 - a), Fresh(false, ch, 3);
            var s := pre + ([o] + (mid1 + ([p] + (mid2 + ([c] + post)))));
      && AllSane(s) && (Walk(s, 0).Some? <==> Walk(post, 2).Some?)
      && (Walk(s, 0).Some? ==> Resolve(s) == OpenersNest(ch, a, pre, mid1, mid2) + Unnest(Walk(post, 2).value))
  {
    var o, p, c := Fresh(true, ch, a), Fresh(true, ch, 3 - a), Fresh(false, ch, 3);
    var d, c2 := Disable(c), InPair(false, ch, a, 0);
    var o', p', c1' := InPair(true, ch, a, 0), InPair(true, ch, 3 - a, 1), InPair(false, ch, 3 - a, 1);
    var front := [o'] + (mid1 + ([p'] + ((mid2 + [d]) + ([c1'] + [c2]))));
    TwoOpenersWalk(ch, a, mid1, mid2, post);
    WalkIdle(pre, [o] + (mid1 + ([p] + (mid2 + ([c] + post)))), 0);
    TwoBehind(pre, front, Walk(post, 2));
    if Walk(post, 2).Some? {
      NestOf(pre, o', mid1, p', mid2 + [d], c1', c2, Walk(post, 2).value);
      NestKept(pre, o', mid1, p', mid2 + [d], c1', [], c2, post);
      NestJoins(pre, o', mid1, p', mid2 + [d], c1', [], c2, Unnest(Walk(post, 2).value));
    }
  }

  /** Two openers whose sizes add up to 3, with nothing but text around them, in front of a closer of
      size 3: both are closed by its pieces, the later one first, both pairs survive the second pass,
      and the rest of the list is resolved and written as if it stood alone. */
  lemma TripleClosesTwo(ch: char, a: nat, pre: seq<Tok>, mid1: seq<Tok>, mid2: seq<Tok>, post: seq<Tok>)
    requires 1 <= a <= 2 && Idle(pre) && Idle(mid1) && Idle(mid2) && AllSane(pre) && AllSane(mid1) && AllSane(mid2)
    requires Untouched(post) && AllSane(post)
    ensures var o, p, c := Fresh(true, ch, a), Fresh(true, ch, 3 - a), Fresh(false, ch, 3);
            var s := pre + ([o] + (mid1 + ([p] + (mid2 + ([c] + post)))));
            var front := OpenersNest(ch, a, pre, mid1, mid2);
      && AllSane(s) && (Ends(s) <==> Ends(post)) && (Walk(s, 0).Some? <==> Walk(post, 0).Some?)
      && (Walk(s, 0).Some? ==> Resolve(s) == front + UpAll(Resolve(post), 2)
                               && HtmlOf(Resolve(s)) == HtmlOf(front) + HtmlOf(Resolve(post)))
  {
    var o, p, c := Fresh(true, ch, a), Fresh(true, ch, 3 - a), Fresh(false, ch, 3);
    var s := pre + ([o] + (mid1 + ([p] + (mid2 + ([c] + post)))));
    OpenersResolved(ch, a, pre, mid1, mid2, post);
    RestAlone(s, OpenersNest(ch, a, pre, mid1, mid2), post, 2);
  }

  // ---------------------------------------------------------------- an opener of size 3

  /** The first piece of the opener looks past the second one and its closer. */
  lemma PieceFinds(p: Tok, q: Tok, mid1: seq<Tok>, c: Tok, mid2: seq<Tok>, d: Tok, post: seq<Tok>, id: nat)
    requires UnmatchedOpen(p) && Sane(p) && UnmatchedOpen(q) && Sane(q) && p.size != 3
    requires UnmatchedClose(c) && Sane(c) && c.size != 3 && c.size != p.size
    requires UnmatchedClose(d) && Sane(d) && d.ch == p.ch && d.size == p.size
    requires Idle(mid1) && Idle(mid2) && AllSane(mid1) && AllSane(mid2) && AllSane(post)
    ensures var s := [q] + (mid1 + ([c] + (mid2 + ([d] + post))));
            var after := [q] + (mid1 + ([c] + (mid2 + ([d.(id := id)] + post))));
      && AllSane(s) && AllSane(after) && AllSane([p] + s)
      && Walk([p] + s, id) == Behind([p.(id := id)], Walk(after, id + 1))
  {
    var d' := d.(id := id);
    ScanHit(p, d, post, id);
    ScanIdle(p, mid2, [d] + post, id, [d'] + post);
    ScanPast(p, c, mid2 + ([d] + post), id);
    ScanIdle(p, mid1, [c] + (mid2 + ([d] + post)), id, [c] + (mid2 + ([d'] + post)));
    ScanPast(p, q, mid1 + ([c] + (mid2 + ([d] + post))), id);
    WalkFinds(p, [q] + (mid1 + ([c] + (mid2 + ([d] + post)))), [q] + (mid1 + ([c] + (mid2 + ([d'] + post)))), id);
  }

  /** The nest that a split opener gets. */
  lemma NestOfPieces(pre: seq<Tok>, d: Tok, a: Tok, b: Tok, m2: seq<Tok>, b': Tok, m3: seq<Tok>, a': Tok, w: seq<Tok>)
    ensures (pre + ([d] + ([a] + ([b] + (m2 + ([b'] + (m3 + [a']))))))) + w ==
              Nest(pre + [d], a, [], b, m2, b', m3, a', w)
  {
    assert [] + ([b] + (m2 + ([b'] + (m3 + ([a'] + w))))) == [b] + (m2 + ([b'] + (m3 + ([a'] + w))));
  }

  /** The first pass on an opener of size 3 and two closers: the split, and the two pieces. */
  lemma OpenerSplits(ch: char, a: nat, mid: seq<Tok>, more: seq<Tok>)
    requires 1 <= a <= 2 && Idle(mid) && AllSane(mid) && AllSane(more)
    ensures var o, ahead := Fresh(true, ch, 3), mid + ([Fresh(false, ch, a)] + more);
            var pieces := [Fresh(true, ch, 3 - a)] + ([Fresh(true, ch, a)] + ahead);
      && AllSane([o] + ahead) && AllSane(pieces)
      && Walk([o] + ahead, 0) == Behind([Disable(o)], Walk(pieces, 0))
  {
    var o, c := Fresh(true, ch, 3), Fresh(false, ch, a);
    var ahead := mid + ([c] + more);
    ScanIdleSplits(o, mid, c, more, 0);
    WalkSplits(o, ahead, a, 0);
    assert SplitOpener(o, a) + ahead == [Fresh(true, ch, 3 - a)] + ([Fresh(true, ch, a)] + ahead);
  }

  lemma PiecesWalk(p: Tok, q: Tok, mid1: seq<Tok>, c: Tok, mid2: seq<Tok>, d: Tok, post: seq<Tok>)
    requires UnmatchedOpen(p) && Sane(p) && UnmatchedOpen(q) && Sane(q) && p.size != 3 && p.size != q.size
    requires UnmatchedClose(c) && Sane(c) && c.size != 3 && c.ch == q.ch && c.size == q.size
    requires UnmatchedClose(d) && Sane(d) && d.ch == p.ch && d.size == p.size
    requires Idle(mid1) && Idle(mid2) && AllSane(mid1) && AllSane(mid2) && AllSane(post)
    ensures var s := [p] + ([q] + (mid1 + ([c] + (mid2 + ([d] + post)))));
            var inner := [q.(id := 1)] + (mid1 + ([c.(id := 1)] + (mid2 + [d.(id := 0)])));
      && AllSane(s)
      && Walk(s, 0) == Behind([p.(id := 0)] + inner, Walk(post, 2))
  {
    var d' := d.(id := 0);
    PieceFinds(p, q, mid1, c, mid2, d, post, 0);
    assert mid2 + ([d'] + post) == (mid2 + [d']) + post;
    InnerFinds(q, mid1, c, mid2 + [d'], post, 1);
    TwoBehind([p.(id := 0)], [q.(id := 1)] + (mid1 + ([c.(id := 1)] + (mid2 + [d']))), Walk(post, 2));
  }

  lemma TwoClosersWalk(ch: char, a: nat, mid1: seq<Tok>, mid2: seq<Tok>, post: seq<Tok>)
    requires 1 <= a <= 2 && Idle(mid1) && Idle(mid2) && AllSane(mid1) && AllSane(mid2) && AllSane(post)
    ensures var o, c, d := Fresh(true, ch, 3), Fresh(false, ch, a), Fresh(false, ch, 3 - a);
            var s := [o] + (mid1 + ([c] + (mid2 + ([d] + post))));
            var inner := [InPair(true, ch, a, 1)] +
                (mid1 + ([InPair(false, ch, a, 1)] + (mid2 + [InPair(false, ch, 3 - a, 0)])));
      && AllSane(s)
      && Walk(s, 0) == Behind([Disable(o)] + ([InPair(true, ch, 3 - a, 0)] + inner), Walk(post, 2))
  {
    var o, c, d := Fresh(true, ch, 3), Fresh(false, ch, a), Fresh(false, ch, 3 - a);
    var p', q', c', d' := InPair(true, ch, 3 - a, 0), InPair(true, ch, a, 1), InPair(false, ch, a, 1),
                          InPair(false, ch, 3 - a, 0);
    OpenerSplits(ch, a, mid1, mid2 + ([d] + post));
    PiecesWalk(Fresh(true, ch, 3 - a), Fresh(true, ch, a), mid1, c, mid2, d, post);
    TwoBehind([Disable(o)], [p'] + ([q'] + (mid1 + ([c'] + (mid2 + [d'])))), Walk(post, 2));
  }

  /** What the pieces of the opener and the two closers resolve to. */
  function ClosersNest(ch: char, a: nat, pre: seq<Tok>, mid1: seq<Tok>, mid2: seq<Tok>): seq<Tok>
    requires a <= 3
  {
    Nest(pre + [Disable(Fresh(true, ch, 3))], InPair(true, ch, 3 - a, 0), [], InPair(true, ch, a, 1), mid1,
         InPair(false, ch, a, 1), mid2, InPair(false, ch, 3 - a, 0), [])
  }

  lemma ClosersResolved(ch: char, a: nat, pre: seq<Tok>, mid1: seq<Tok>, mid2: seq<Tok>, post: seq<Tok>)
    requires 1 <= a <= 2 && Idle(pre) && Idle(mid1) && Idle(mid2) && AllSane(pre) && AllSane(mid1) && AllSane(mid2)
    requires Untouched(post) && AllSane(post)
    ensures var o, c, d := Fresh(true, ch, 3), Fresh(false, ch, a), Fresh(false, ch, 3 - a);
            var s := pre + ([o] + (mid1 + ([c] + (mid2 + ([d] + post)))));
      && AllSane(s) && (Walk(s, 0).Some? <==> Walk(post, 2).Some?)
      && (Walk(s, 0).Some? ==> Resolve(s) == ClosersNest(ch, a, pre, mid1, mid2) + Unnest(Walk(post, 2).value))
  {
    var o, c, d := Fresh(true, ch, 3), Fresh(false, ch, a), Fresh(false, ch, 3 - a);
    var p', q', c', d' := InPair(true, ch, 3 - a, 0), InPair(true, ch, a, 1), InPair(false, ch, a, 1),
        InPair(false, ch, 3 - a, 0);
    var spent, w := Disable(o), Walk(post, 2);
    var front := [spent] + ([p'] + ([q'] + (mid1 + ([c'] + (mid2 + [d'])))));
    TwoClosersWalk(ch, a, mid1, mid2, post);
    WalkIdle(pre, [o] + (mid1 + ([c] + (mid2 + ([d] + post)))), 0);
    TwoBehind(pre, front, w);
    if w.Some? {
      NestOfPieces(pre, spent, p', q', mid1, c', mid2, d', w.value);
      NestKept(pre + [spent], p', [], q', mid1, c', mid2, d', post);
      NestJoins(pre + [spent], p', [], q', mid1, c', mid2, d', Unnest(w.value));
    }
  }

  /** An opener of size 3, with nothing but text around it, in front of two closers whose sizes add up
      to 3: its inner piece takes the nearer closer and its outer piece the other, both pairs survive
      the second pass, and the rest of the list is resolved and written as if it stood alone. */
  lemma TwoCloseTriple(ch: char, a: nat, pre: seq<Tok>, mid1: seq<Tok>, mid2: seq<Tok>, post: seq<Tok>)
    requires 1 <= a <= 2 && Idle(pre) && Idle(mid1) && Idle(mid2) && AllSane(pre) && AllSane(mid1) && AllSane(mid2)
    requires Untouched(post) && AllSane(post)
    ensures var o, c, d := Fresh(true, ch, 3), Fresh(false, ch, a), Fresh(false, ch, 3 - a);
            var s := pre + ([o] + (mid1 + ([c] + (mid2 + ([d] + post)))));
            var front := ClosersNest(ch, a, pre, mid1, mid2);
      && AllSane(s) && (Ends(s) <==> Ends(post)) && (Walk(s, 0).Some? <==> Walk(post, 0).Some?)
      && (Walk(s, 0).Some? ==> Resolve(s) == front + UpAll(Resolve(post), 2)
                               && HtmlOf(Resolve(s)) == HtmlOf(front) + HtmlOf(Resolve(post)))
  {
    var o, c, d := Fresh(true, ch, 3), Fresh(false, ch, a), Fresh(false, ch, 3 - a);
    var s := pre + ([o] + (mid1 + ([c] + (mid2 + ([d] + post)))));
    ClosersResolved(ch, a, pre, mid1, mid2, post);
    RestAlone(s, ClosersNest(ch, a, pre, mid1, mid2), post, 2);
  }
}
