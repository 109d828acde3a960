/** What an opener and a closer of one kind are for: with nothing but text between them, they become a
    pair of tags, and what stands behind is resolved and written as if it stood alone. */
module EmphasisPairs {
  import opened EmphasisTokens
  import opened EmphasisMatching
  import opened EmphasisPairing
  import opened EmphasisNesting
  import opened EmphasisHtml
  import opened EmphasisTermination
  import opened EmphasisShift
  import opened EmphasisTriples

  /** An opener and a closer with text in front of each and a rest behind them. */
  function Around(pre: seq<Tok>, o: Tok, mid: seq<Tok>, c: Tok, post: seq<Tok>): seq<Tok> {
    pre + ([o] + (mid + ([c] + post)))
  }

  lemma AroundJoins(pre: seq<Tok>, o: Tok, mid: seq<Tok>, c: Tok, post: seq<Tok>)
    ensures Around(pre, o, mid, c, post) == Around(pre, o, mid, c, []) + post
  {
  }

  lemma PairWalk(ch: char, n: nat, pre: seq<Tok>, mid: seq<Tok>, post: seq<Tok>)
    requires 1 <= n <= 3 && Idle(pre) && Idle(mid) && AllSane(pre) && AllSane(mid) && AllSane(post)
    ensures var s := Around(pre, Fresh(true, ch, n), mid, Fresh(false, ch, n), post);
      && AllSane(s)
      && Walk(s, 0) ==
         Behind(Around(pre, InPair(true, ch, n, 0), mid, InPair(false, ch, n, 0), []), Walk(post, 1))
  {
    var o, c := Fresh(true, ch, n), Fresh(false, ch, n);
    var o', c' := InPair(true, ch, n, 0), InPair(false, ch, n, 0);
    assert [] + post == post;
    InnerFinds(o, mid, c, [], post, 0);
    WalkIdle(pre, [o] + (mid + ([c] + post)), 0);
    TwoBehind(pre, [o'] + (mid + ([c'] + [])), Walk(post, 1));
  }

  lemma PairNests(ch: char, n: nat, pre: seq<Tok>, mid: seq<Tok>)
    requires Idle(pre) && Idle(mid)
    ensures WellNested(Around(pre, InPair(true, ch, n, 0), mid, InPair(false, ch, n, 0), []), Empty)
  {
    var o, c := InPair(true, ch, n, 0), InPair(false, ch, n, 0);
    var one := Push(0, Empty);
    NestedCloses(c, [], Empty);
    NestedPast(mid, [c] + [], one);
    NestedOpens(o, mid + ([c] + []), Empty);
    NestedPast(pre, [o] + (mid + ([c] + [])), Empty);
  }

  lemma PairIds(o: Tok, c: Tok, pre: seq<Tok>, mid: seq<Tok>)
    requires Idle(pre) && Idle(mid) && o.Marker? && c.Marker? && o.id == c.id == 0
    ensures var f := Around(pre, o, mid, c, []);
            forall i :: 0 <= i < |f| && f[i].Marker? ==> f[i].id < 1
  {
    var f := Around(pre, o, mid, c, []);
    forall t | t in f && t.Marker? ensures t.id < 1 {
      assert t in pre || t == o || t in mid || t == c;
    }
  }

  lemma PairKept(ch: char, n: nat, pre: seq<Tok>, mid: seq<Tok>, post: seq<Tok>)
    requires Idle(pre) && Idle(mid) && Untouched(post) && AllSane(post) && Walk(post, 1).Some?
    ensures var f, w := Around(pre, InPair(true, ch, n, 0), mid, InPair(false, ch, n, 0), []), Walk(post, 1).value;
            Unnest(f + w) == f + Unnest(w)
  {
    var f := Around(pre, InPair(true, ch, n, 0), mid, InPair(false, ch, n, 0), []);
    UntouchedIsUnpaired(post);
    WalkPairs(post, 1, map[]);
    PairNests(ch, n, pre, mid);
    PairIds(InPair(true, ch, n, 0), InPair(false, ch, n, 0), pre, mid);
    NestedFrontKept(f, Walk(post, 1).value, 1);
  }

  /** An opener and a closer of the same character and size, with only text in front of each, and any
      rest: the pass ends exactly if it ends on the rest, the two are a pair, and the rest is resolved as
      if it stood alone. */
  lemma PairResolved(ch: char, n: nat, pre: seq<Tok>, mid: seq<Tok>, post: seq<Tok>)
    requires 1 <= n <= 3 && Idle(pre) && Idle(mid) && AllSane(pre) && AllSane(mid)
    requires Untouched(post) && AllSane(post)
    ensures var s := Around(pre, Fresh(true, ch, n), mid, Fresh(false, ch, n), post);
      && AllSane(s) && (Ends(s) <==> Ends(post)) && (Walk(s, 0).Some? <==> Walk(post, 0).Some?)
      && (Walk(s, 0).Some? ==>
            Resolve(s) == Around(pre, InPair(true, ch, n, 0), mid, InPair(false, ch, n, 0), UpAll(Resolve(post), 1)))
  {
    var s := Around(pre, Fresh(true, ch, n), mid, Fresh(false, ch, n), post);
    var o', c' := InPair(true, ch, n, 0), InPair(false, ch, n, 0);
    var front := Around(pre, o', mid, c', []);
    PairWalk(ch, n, pre, mid, post);
    if Walk(s, 0).Some? {
      PairKept(ch, n, pre, mid, post);
    }
    RestAlone(s, front, post, 1);
    if Walk(s, 0).Some? {
      AroundJoins(pre, o', mid, c', UpAll(Resolve(post), 1));
    }
  }
}
