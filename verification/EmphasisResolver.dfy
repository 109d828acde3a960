/** The two matching passes on the heap: marker objects with match pointers, the token list that
    grows while two iterators walk it, and the stack of open matches. */
module EmphasisResolver {
  import opened Encoders
  import opened Wrappers
  import opened EmphasisTokens
  import opened EmphasisMatching
  import opened EmphasisPairing
  import opened EmphasisNesting
  import opened EmphasisTermination
  import opened EmphasisHtml

  class BoldOrItalicMarker {
    const open: bool
    const ch: char
    const size: nat
    var partner: BoldOrItalicMarker?
    var cannotMatch: bool
    var disabled: bool
    var id: int

    constructor (open: bool, ch: char, size: nat)
      ensures this.open == open && this.ch == ch && this.size == size
      ensures partner == null && !cannotMatch && !disabled && id == -1
    {
      this.open, this.ch, this.size := open, ch, size;
      partner, cannotMatch, disabled, id := null, false, false, -1;
    }

    predicate IsUnmatchedOpenMarker()
      reads this
    {
      open && partner == null && !cannotMatch
    }

    predicate IsUnmatchedCloseMarker()
      reads this
    {
      !open && partner == null && !cannotMatch
    }

    predicate IsMatchedOpenMarker()
      reads this
    {
      open && partner != null
    }

    predicate IsMatchedCloseMarker()
      reads this
    {
      !open && partner != null
    }

    /** Sets or clears the partner; clearing resets the id. */
    method Matched(other: BoldOrItalicMarker?, pairId: int := -1)
      modifies this
      ensures partner == other && id == pairId
      ensures cannotMatch == old(cannotMatch) && disabled == old(disabled)
    {
      partner, id := other, pairId;
    }

    method Disable()
      modifies this
      ensures cannotMatch && disabled && partner == old(partner) && id == old(id)
    {
      cannotMatch := true;
      disabled := true;
    }

    /** The value that this marker stands for. */
    ghost function View(): Tok
      reads this
    {
      Marker(open, ch, size, if partner == null then -1 else id, cannotMatch, disabled)
    }

    method WriteAsHtml() returns (r: string)
      requires partner != null ==> 1 <= size <= 3 && id >= 0
      ensures r == Html(View())
    {
      r := "";
      if !disabled {
        if partner != null {
          assert size >= 1 && size <= 3;
          if open {
            r := if size == 1 then "<em>" else if size == 2 then "<strong>" else "<strong><em>";
          } else {
            r := if size == 1 then "</em>" else if size == 2 then "</strong>" else "</em></strong>";
          }
        } else {
          r := Copies(ch, size);
        }
      }
    }
  }

  datatype Token = Other(text: string) | Emphasis(marker: BoldOrItalicMarker)

  ghost predicate Views(t: Token, v: Tok, ms: set<BoldOrItalicMarker>)
    reads ms
  {
    match t
    case Other(text) => v == Text(text)
    case Emphasis(m) => m in ms && m.View() == v
  }

  /** The tokens stand for the values `vs`. */
  ghost predicate Shows(ts: seq<Token>, vs: seq<Tok>, ms: set<BoldOrItalicMarker>)
    reads ms
  {
    |ts| == |vs| && forall i :: 0 <= i < |ts| ==> Views(ts[i], vs[i], ms)
  }

  /** No marker occurs twice in the list. */
  ghost predicate Distinct(ts: seq<Token>) {
    forall i, j :: 0 <= i < j < |ts| && ts[i].Emphasis? ==> ts[i] != ts[j]
  }

  /** The match pointers are symmetric: partners carry the same id, one opens and one closes. */
  ghost predicate Linked(ms: set<BoldOrItalicMarker>)
    reads ms
  {
    forall m :: m in ms && m.partner != null ==>
      m.id >= 0 && m.partner in ms && m.partner.partner == m && m.partner.id == m.id && m.partner.open != m.open
  }

  /** The list `ts`, its values `vs` and the set `ms` of its markers. */
  ghost predicate Holds(ts: seq<Token>, vs: seq<Tok>, ms: set<BoldOrItalicMarker>)
    reads ms
  {
    Shows(ts, vs, ms) && Distinct(ts) && Linked(ms) && forall m :: m in ms ==> Emphasis(m) in ts
  }

  // ---------------------------------------------------------------- single changes to the list

  method DisableAt(ts: seq<Token>, ghost before: seq<Tok>, ghost t: Tok, ghost after: seq<Tok>,
                   ghost ms: set<BoldOrItalicMarker>, j: nat)
    requires j == |before| && Holds(ts, before + [t] + after, ms)
    requires ts[j].Emphasis?
    modifies ts[j].marker
    ensures t.Marker? && Holds(ts, before + [Disable(t)] + after, ms)
  {
    assert Views(ts[j], (before + [t] + after)[j], ms);
    var m := ts[j].marker;
    m.Disable();
  }

  lemma InsertionShows(ts: seq<Token>, a: BoldOrItalicMarker, b: BoldOrItalicMarker, before: seq<Tok>,
                       after: seq<Tok>, ms: set<BoldOrItalicMarker>, j: nat)
    requires j == |before| && Shows(ts, before + after, ms)
    ensures Shows(ts[..j] + [Emphasis(a), Emphasis(b)] + ts[j..], before + [a.View(), b.View()] + after, ms + {a, b})
  {
    var ts' := ts[..j] + [Emphasis(a), Emphasis(b)] + ts[j..];
    var vs' := before + [a.View(), b.View()] + after;
    forall i | 0 <= i < |ts'| ensures Views(ts'[i], vs'[i], ms + {a, b}) {
      if i < j { assert Views(ts[i], (before + after)[i], ms); }
      else if i >= j + 2 { assert Views(ts[i - 2], (before + after)[i - 2], ms); }
    }
  }

  lemma NotIn(ts: seq<Token>, vs: seq<Tok>, ms: set<BoldOrItalicMarker>, m: BoldOrItalicMarker)
    requires Shows(ts, vs, ms) && m !in ms
    ensures Emphasis(m) !in ts
  {
    forall i | 0 <= i < |ts| ensures ts[i] != Emphasis(m) {
      assert Views(ts[i], vs[i], ms);
    }
  }

  lemma InsertionDistinct(ts: seq<Token>, a: BoldOrItalicMarker, b: BoldOrItalicMarker, vs: seq<Tok>,
                          ms: set<BoldOrItalicMarker>, j: nat)
    requires Holds(ts, vs, ms) && j <= |ts|
    requires a !in ms && b !in ms && a != b
    ensures var ts' := ts[..j] + [Emphasis(a), Emphasis(b)] + ts[j..];
      Distinct(ts') && forall m :: m in ms + {a, b} ==> Emphasis(m) in ts'
  {
    var ts' := ts[..j] + [Emphasis(a), Emphasis(b)] + ts[j..];
    NotIn(ts, vs, ms, a);
    NotIn(ts, vs, ms, b);
    forall i, k | 0 <= i < k < |ts'| && ts'[i].Emphasis? ensures ts'[i] != ts'[k] {
      assert i < j || i == j || i == j + 1 || ts'[i] == ts[i - 2];
      assert k < j || k == j || k == j + 1 || ts'[k] == ts[k - 2];
    }
    forall m | m in ms + {a, b} ensures Emphasis(m) in ts' {
      if m in ms {
        assert Emphasis(m) in ts[..j] + ts[j..] by { assert ts[..j] + ts[j..] == ts; }
      } else if m == a {
        assert ts'[j] == Emphasis(a);
      } else {
        assert ts'[j + 1] == Emphasis(b);
      }
    }
  }

  method InsertTwo(ts: seq<Token>, a: BoldOrItalicMarker, b: BoldOrItalicMarker, ghost before: seq<Tok>,
                   ghost after: seq<Tok>, ghost ms: set<BoldOrItalicMarker>, j: nat)
    returns (ts': seq<Token>)
    requires j == |before| && Holds(ts, before + after, ms)
    requires a !in ms && b !in ms && a != b && a.partner == null && b.partner == null
    ensures Holds(ts', before + [a.View(), b.View()] + after, ms + {a, b})
    ensures |ts'| == |ts| + 2 && forall k :: 0 <= k < j ==> ts'[k] == ts[k]
  {
    ts' := ts[..j] + [Emphasis(a), Emphasis(b)] + ts[j..];
    InsertionShows(ts, a, b, before, after, ms, j);
    InsertionDistinct(ts, a, b, before + after, ms, j);
  }

  /** Pairs the opener at `i` with the closer at `j`. */
  method MatchAt(ts: seq<Token>, i: nat, j: nat, id: nat, ghost pre: seq<Tok>, ghost o: Tok,
                 ghost mid: seq<Tok>, ghost t: Tok, ghost after: seq<Tok>, ghost ms: set<BoldOrItalicMarker>)
    requires i == |pre| && j == i + 1 + |mid| && Holds(ts, pre + [o] + mid + [t] + after, ms)
    requires ts[i].Emphasis? && ts[j].Emphasis?
    requires UnmatchedOpen(o) && UnmatchedClose(t)
    modifies ts[i].marker, ts[j].marker
    ensures Holds(ts, pre + [o.(id := id)] + mid + [t.(id := id)] + after, ms)
  {
    ghost var vs := pre + [o] + mid + [t] + after;
    assert Views(ts[i], vs[i], ms) && Views(ts[j], vs[j], ms);
    var openToken, closeToken := ts[i].marker, ts[j].marker;
    openToken.Matched(closeToken, id);
    closeToken.Matched(openToken, id);
    assert Linked(ms);
    ghost var vs' := pre + [o.(id := id)] + mid + [t.(id := id)] + after;
    forall k | 0 <= k < |ts| ensures Views(ts[k], vs'[k], ms) {
      assert k != i && k != j ==> vs'[k] == vs[k];
    }
  }

  /** The two markers of sizes `3 - size` and `size` that replace a marker of size 3. */
  ghost function Pieces(t: Tok, size: nat): seq<Tok>
    requires t.Marker? && size <= 3
  {
    [Fresh(t.open, t.ch, 3 - size), Fresh(t.open, t.ch, size)]
  }

  /** Two fresh markers for the pieces of `m`: the leftovers, then the match. */
  method NewPieces(m: BoldOrItalicMarker, size: nat, ghost t: Tok)
    returns (leftover: BoldOrItalicMarker, matching: BoldOrItalicMarker)
    requires t.Marker? && t.open == m.open && t.ch == m.ch && t.size == m.size == 3 && size <= 3
    ensures fresh(leftover) && fresh(matching) && leftover != matching
    ensures leftover.partner == null && matching.partner == null
    ensures [leftover.View(), matching.View()] == Pieces(t, size)
  {
    leftover := new BoldOrItalicMarker(m.open, m.ch, m.size - size);
    matching := new BoldOrItalicMarker(m.open, m.ch, size);
  }

  /** Disables the marker of size 3 at `j` and puts its two pieces behind it. */
  method SplitAt(ts: seq<Token>, j: nat, size: nat, ghost before: seq<Tok>, ghost t: Tok,
                 ghost after: seq<Tok>, ghost ms: set<BoldOrItalicMarker>)
    returns (ts': seq<Token>, ghost ms': set<BoldOrItalicMarker>)
    requires j == |before| && Holds(ts, before + [t] + after, ms)
    requires ts[j].Emphasis? && ts[j].marker.size == 3 && size <= 3
    modifies ts[j].marker
    ensures t.Marker? && Holds(ts', before + [Disable(t)] + Pieces(t, size) + after, ms')
    ensures forall k :: 0 <= k <= j ==> k < |ts'| && ts'[k] == ts[k]
    ensures ms <= ms' && forall m :: m in ms' ==> m in ms || fresh(m)
  {
    assert Views(ts[j], (before + [t] + after)[j], ms);
    var m := ts[j].marker;
    DisableAt(ts, before, t, after, ms, j);
    var leftover, matching := NewPieces(m, size, t);
    ms' := ms + {leftover, matching};
    ts' := InsertTwo(ts, leftover, matching, before + [Disable(t)], after, ms, j + 1);
  }

  // ---------------------------------------------------------------- the inner loop

  lemma Focus(pre: seq<Tok>, o: Tok, mid: seq<Tok>, rest: seq<Tok>)
    requires rest != []
    ensures pre + [o] + mid + rest == pre + [o] + mid + [rest[0]] + rest[1..]
    ensures pre + [o] + mid + rest == pre + [o] + (mid + [rest[0]]) + rest[1..]
    ensures [rest[0]] + rest[1..] == rest
  {
  }

  lemma Refocus(pre: seq<Tok>, o: Tok, mid: seq<Tok>, t: Tok, pieces: seq<Tok>, after: seq<Tok>)
    ensures pre + [o] + mid + [t] + pieces + after == pre + [o] + (mid + [t]) + (pieces + after)
  {
  }

  lemma Regroup(pre: seq<Tok>, o: Tok, mid: seq<Tok>, t: Tok, after: seq<Tok>)
    ensures pre + [o] + mid + [t] + after == pre + [o] + (mid + ([t] + after))
  {
  }

  lemma OpenFocus(pre: seq<Tok>, o: Tok, mid: seq<Tok>, rest: seq<Tok>, size: nat)
    requires o.Marker? && o.open && size <= 3
    ensures pre + [o] + mid + rest == pre + [o] + (mid + rest)
    ensures pre + [Disable(o)] + Pieces(o, size) + (mid + rest) ==
              pre + [Disable(o)] + (SplitOpener(o, size) + mid + rest)
  {
  }

  /** After a closer has been split the scan goes on at its first piece. */
  lemma CloserSplit(pre: seq<Tok>, o: Tok, mid: seq<Tok>, rest: seq<Tok>, id: nat)
    requires UnmatchedOpen(o) && Sane(o) && AllSane(rest) && rest != []
    requires UnmatchedClose(rest[0]) && rest[0].size == 3 && o.size != 3
    ensures var rest' := Pieces(rest[0], o.size) + rest[1..];
      && Weight(rest') < Weight(rest) && AllSane(rest')
      && var r := Scan(o, rest', id);
      && !r.Mixed? && !r.SplitOpen?
      && Landing(pre, o, mid + [Disable(rest[0])], rest', id, r) == Landing(pre, o, mid, rest, id, Scan(o, rest, id))
  {
    var t := rest[0];
    WeightHead(rest);
    WeightTwo(Fresh(false, t.ch, 3 - o.size), Fresh(false, t.ch, o.size), rest[1..]);
    var rest' := SplitCloser(t, o.size) + rest[1..];
    ScanWeight(o, rest', id);
    LandingSlides(pre, o, mid, Disable(t), rest', id, Scan(o, rest', id));
    LandingForgetsRest(pre, o, mid, [Disable(t)] + rest', rest, id, Scan(o, rest, id));
  }

  /** A token that is no closer for the opener is passed by. */
  lemma CloserPassed(pre: seq<Tok>, o: Tok, mid: seq<Tok>, rest: seq<Tok>, id: nat)
    requires UnmatchedOpen(o) && Sane(o) && AllSane(rest) && rest != [] && !Scan(o, rest, id).Mixed?
    requires UnmatchedClose(rest[0]) ==>
             rest[0].size != 3 && o.size != 3 && !(rest[0].ch == o.ch && rest[0].size == o.size)
    ensures var r := Scan(o, rest[1..], id);
      && Weight(rest[1..]) < Weight(rest) && AllSane(rest[1..])
      && !r.Mixed? && (r.SplitOpen? ==> r.closeSize <= 3)
      && Landing(pre, o, mid + [rest[0]], rest[1..], id, r) == Landing(pre, o, mid, rest, id, Scan(o, rest, id))
  {
    WeightHead(rest);
    ScanWeight(o, rest[1..], id);
    LandingSlides(pre, o, mid, rest[0], rest[1..], id, Scan(o, rest[1..], id));
    assert [rest[0]] + rest[1..] == rest;
  }

  /** The inner loop, from the opener `o` at `i` on, over the values `tail` behind it. */
  method FindCloser(tgt: seq<Token>, i: nat, id: nat, ghost pre: seq<Tok>, ghost o: Tok, ghost tail: seq<Tok>,
                    ghost ms: set<BoldOrItalicMarker>)
    returns (ts: seq<Token>, id': nat, ghost o': Tok, ghost tail': seq<Tok>, ghost ms': set<BoldOrItalicMarker>)
    requires Holds(tgt, pre + [o] + tail, ms) && i == |pre|
    requires UnmatchedOpen(o) && Sane(o) && AllSane(tail) && !Scan(o, tail, id).Mixed?
    modifies ms
    ensures Scan(o, tail, id).SplitOpen? ==> Scan(o, tail, id).closeSize <= 3
    ensures Holds(ts, pre + [o'] + tail', ms')
    ensures Outer(pre + [o'], tail', id') == Landing(pre, o, [], tail, id, Scan(o, tail, id))
    ensures ms <= ms' && forall m :: m in ms' ==> m in ms || fresh(m)
  {
    ScanWeight(o, tail, id);
    ghost var mid, rest := [], tail;
    ghost var goal := Landing(pre, o, [], tail, id, Scan(o, tail, id));
    ts, id', ms' := tgt, id, ms;
    assert Views(ts[i], (pre + [o] + tail)[i], ms);
    var openToken := ts[i].marker;
    var iii := i + 1;
    assert pre + [o] + tail == pre + [o] + mid + rest;
    while iii < |ts|
      invariant iii == i + 1 + |mid|
      invariant Holds(ts, pre + [o] + mid + rest, ms')
      invariant ms <= ms' && forall m :: m in ms' ==> m in ms || fresh(m)
      invariant i < |ts| && ts[i] == Emphasis(openToken) && openToken.size == o.size && openToken.ch == o.ch
      invariant AllSane(rest) && !Scan(o, rest, id).Mixed?
      invariant Scan(o, rest, id).SplitOpen? ==> Scan(o, rest, id).closeSize <= 3
      invariant Landing(pre, o, mid, rest, id, Scan(o, rest, id)) == goal
      decreases Weight(rest)
    {
      ghost var t, after := rest[0], rest[1..];
      WeightHead(rest);
      Focus(pre, o, mid, rest);
      assert Views(ts[iii], (pre + [o] + mid + [t] + after)[iii], ms');
      if ts[iii].Emphasis? && ts[iii].marker.IsUnmatchedCloseMarker() {
        var closeToken := ts[iii].marker;
        if closeToken.size == 3 && openToken.size != 3 {
          ts, ms' := SplitAt(ts, iii, openToken.size, pre + [o] + mid, t, after, ms');
          CloserSplit(pre, o, mid, rest, id);
          Refocus(pre, o, mid, Disable(t), Pieces(t, o.size), after);
          mid, rest := mid + [Disable(t)], Pieces(t, o.size) + after;
          iii := iii + 1;
          continue;
        }
        if closeToken.ch == openToken.ch && closeToken.size == openToken.size {
          MatchAt(ts, i, iii, id, pre, o, mid, t, after, ms');
          Regroup(pre, o.(id := id), mid, t.(id := id), after);
          return ts, id + 1, o.(id := id), mid + ([t.(id := id)] + after), ms';
        } else if openToken.size == 3 {
          OpenFocus(pre, o, mid, rest, t.size);
          ts, ms' := SplitAt(ts, i, closeToken.size, pre, o, mid + rest, ms');
          return ts, id, Disable(o), SplitOpener(o, t.size) + mid + rest, ms';
        }
      }
      CloserPassed(pre, o, mid, rest, id);
      mid, rest := mid + [t], after;
      iii := iii + 1;
    }
    assert rest == [] && pre + [o] + mid + rest == pre + [o] + mid && mid + [] == mid;
    return ts, id, o, mid, ms';
  }

  // ---------------------------------------------------------------- the outer loop

  /** The values that the outer loop leaves behind it, in front of what it will leave of the rest. */
  ghost function After(pre: seq<Tok>, rest: seq<Tok>, id: nat): Option<seq<Tok>>
    requires AllSane(rest)
  {
    match Walk(rest, id)
    case None => None
    case Some(r) => Some(pre + r)
  }

  lemma AfterSkips(pre: seq<Tok>, rest: seq<Tok>, id: nat)
    requires AllSane(rest) && rest != [] && !UnmatchedOpen(rest[0])
    ensures AllSane(rest[1..]) && After(pre + [rest[0]], rest[1..], id) == After(pre, rest, id)
  {
    if Walk(rest[1..], id).Some? {
      Slide(pre, rest[0], Walk(rest[1..], id).value);
    }
  }

  lemma AfterScans(pre: seq<Tok>, rest: seq<Tok>, id: nat)
    requires AllSane(rest) && rest != [] && UnmatchedOpen(rest[0]) && Walk(rest, id).Some?
    ensures var r := Scan(rest[0], rest[1..], id);
      && !r.Mixed? && (r.SplitOpen? ==> r.closeSize <= 3)
      && var next := Landing(pre, rest[0], [], rest[1..], id, r);
      && AllSane(next.rest) && Weight(next.rest) < Weight(rest)
      && After(next.pre, next.rest, next.id) == After(pre, rest, id)
  {
    assert [rest[0]] + rest[1..] == rest;
    ScanWeight(rest[0], rest[1..], id);
    var o', s', id' := Resume(rest[0], rest[1..], id, Scan(rest[0], rest[1..], id));
    assert Landing(pre, rest[0], [], rest[1..], id, Scan(rest[0], rest[1..], id)) == Outer(pre + [o'], s', id');
    Slide(pre, o', Walk(s', id').value);
  }

  lemma Ahead(pre: seq<Tok>, rest: seq<Tok>)
    requires rest != []
    ensures pre + rest == pre + [rest[0]] + rest[1..]
  {
  }

  /** The first pass, on every list on which it ends. Of other lists nothing can be said of the
      program: see EndsExactly. */
  method MatchMarkers(tgt: seq<Token>, ghost s: seq<Tok>, ghost ms: set<BoldOrItalicMarker>)
    returns (ts: seq<Token>, ghost ms': set<BoldOrItalicMarker>)
    requires Holds(tgt, s, ms)
    requires AllSane(s) && Ends(s)
    modifies ms
    ensures Walk(s, 0).Some? && Holds(ts, Walk(s, 0).value, ms')
    ensures ms <= ms' && forall m :: m in ms' ==> m in ms || fresh(m)
  {
    EndsWithWalk(s);
    ts, ms' := tgt, ms;
    var id := 0;
    var ii := 0;
    ghost var pre, rest := [], s;
    assert [] + s == s && [] + Walk(s, 0).value == Walk(s, 0).value;
    while ii < |ts|
      invariant ii == |pre|
      invariant Holds(ts, pre + rest, ms')
      invariant ms <= ms' && forall m :: m in ms' ==> m in ms || fresh(m)
      invariant AllSane(rest) && 0 <= id && After(pre, rest, id) == Some(Walk(s, 0).value)
      decreases Weight(rest)
    {
      ghost var o, tail := rest[0], rest[1..];
      WeightHead(rest);
      Ahead(pre, rest);
      assert Views(ts[ii], (pre + [o] + tail)[ii], ms');
      if ts[ii].Emphasis? && ts[ii].marker.IsUnmatchedOpenMarker() {
        AfterScans(pre, rest, id);
        ghost var o', tail';
        ts, id, o', tail', ms' := FindCloser(ts, ii, id, pre, o, tail, ms');
        pre, rest := pre + [o'], tail';
      } else {
        AfterSkips(pre, rest, id);
        pre, rest := pre + [o], tail;
      }
      ii := ii + 1;
    }
    assert rest == [] && pre + [] == pre;
  }

  // ---------------------------------------------------------------- the second pass

  datatype Stack<T> = Bottom | Top(top: T, below: Stack<T>)

  /** The marker stack holds the openers of the pairs on the id stack. */
  ghost predicate StackIs(stack: Stack<BoldOrItalicMarker>, st: IdStack, owner: map<int, BoldOrItalicMarker>) {
    match st
    case Empty => stack.Bottom?
    case Push(id, below) => stack.Top? && id in owner && owner[id] == stack.top && StackIs(stack.below, below, owner)
  }

  /** The openers seen so far by pair id, and what the pass has done to them. */
  ghost predicate Owners(owner: map<int, BoldOrItalicMarker>, dead: set<int>, ms: set<BoldOrItalicMarker>)
    reads ms
  {
    forall c :: c in owner ==>
      && owner[c] in ms && owner[c].open
      && (c in dead ==> owner[c].partner == null)
      && (c !in dead ==> owner[c].partner != null && owner[c].id == c)
  }

  lemma {:induction false} StackGrows(stack: Stack<BoldOrItalicMarker>, st: IdStack,
                                      owner: map<int, BoldOrItalicMarker>, c: int, m: BoldOrItalicMarker)
    requires StackIs(stack, st, owner) && c !in owner
    ensures StackIs(stack, st, owner[c := m])
    decreases st
  {
    if st.Push? {
      StackGrows(stack.below, st.below, owner, c, m);
    }
  }

  lemma {:induction false} StackedAreOwned(stack: Stack<BoldOrItalicMarker>, st: IdStack,
                                           owner: map<int, BoldOrItalicMarker>)
    requires StackIs(stack, st, owner)
    ensures Ids(st) <= owner.Keys
    decreases st
  {
    if st.Push? {
      StackedAreOwned(stack.below, st.below, owner);
    }
  }

  /** A marker of the list at the position that shows it. */
  lemma PositionOf(ts: seq<Token>, vs: seq<Tok>, ms: set<BoldOrItalicMarker>, m: BoldOrItalicMarker) returns (i: nat)
    requires Holds(ts, vs, ms) && m in ms
    ensures i < |ts| && ts[i] == Emphasis(m) && vs[i] == m.View()
  {
    i :| 0 <= i < |ts| && ts[i] == Emphasis(m);
    assert Views(ts[i], vs[i], ms);
  }

  /** Two matched openers with the same id are the same object. */
  lemma OpenerIsUnique(ts: seq<Token>, w: seq<Tok>, dead: set<int>, ms: set<BoldOrItalicMarker>,
                       a: BoldOrItalicMarker, b: BoldOrItalicMarker)
    requires Holds(ts, Drop(w, dead), ms) && UniqueIds(w)
    requires a in ms && a.open && a.partner != null && b in ms && b.open && b.partner != null && a.id == b.id
    ensures a == b
  {
    var i := PositionOf(ts, Drop(w, dead), ms, a);
    var j := PositionOf(ts, Drop(w, dead), ms, b);
    assert MatchedOpen(Drop(w, dead)[i]) && MatchedOpen(Drop(w, dead)[j]);
    assert MatchedOpen(w[i]) && MatchedOpen(w[j]) && w[i].id == w[j].id;
  }

  /** The positions of a pair are those of its two markers. */
  lemma PairPositions(ts: seq<Token>, k: nat, w: seq<Tok>, dead: set<int>, ms: set<BoldOrItalicMarker>) returns (i: nat)
    requires Holds(ts, Drop(w, dead), ms) && UniqueIds(w)
    requires k < |ts| && MatchedClose(w[k]) && w[k].id !in dead
    requires ts[k].Emphasis? && ts[k].marker.partner != null
    ensures ts[k].marker in ms && !ts[k].marker.open
    ensures var open := ts[k].marker.partner;
      open in ms && open.open && open.partner == ts[k].marker && open.id == w[k].id && i < |ts| &&
          ts[i] == Emphasis(open)
    ensures forall j :: 0 <= j < |ts| && j != k && j != i ==> Drop(w, dead + {w[k].id})[j] == Drop(w, dead)[j]
    ensures i != k && Drop(w, dead + {w[k].id})[i] == Unmatch(Drop(w, dead)[i])
    ensures Drop(w, dead + {w[k].id})[k] == Unmatch(Drop(w, dead)[k])
  {
    assert Views(ts[k], Drop(w, dead)[k], ms);
    i := PositionOf(ts, Drop(w, dead), ms, ts[k].marker.partner);
    assert MatchedOpen(w[i]) && w[i].id == w[k].id;
  }

  method UnmatchPair(ts: seq<Token>, k: nat, ghost w: seq<Tok>, ghost dead: set<int>, ghost ms: set<BoldOrItalicMarker>)
    requires Holds(ts, Drop(w, dead), ms) && UniqueIds(w)
    requires k < |ts| && MatchedClose(w[k]) && w[k].id !in dead
    requires ts[k].Emphasis? && ts[k].marker.partner != null
    modifies ts[k].marker, ts[k].marker.partner
    ensures Holds(ts, Drop(w, dead + {w[k].id}), ms)
    ensures old(ts[k].marker.partner).partner == null
  {
    ghost var vs, vs' := Drop(w, dead), Drop(w, dead + {w[k].id});
    ghost var i := PairPositions(ts, k, w, dead, ms);
    assert Views(ts[i], vs[i], ms) && Views(ts[k], vs[k], ms);
    var close := ts[k].marker;
    close.partner.Matched(null);
    close.Matched(null);
    assert Linked(ms);
    forall j | 0 <= j < |ts| ensures Views(ts[j], vs'[j], ms) {
      assert j == k || j == i || vs'[j] == vs[j];
    }
  }

  /** Unmatches the closer at `k` and its partner, the opener that owns the id. */
  method UnmatchAt(ts: seq<Token>, k: nat, ghost w: seq<Tok>, ghost dead: set<int>,
                   ghost ms: set<BoldOrItalicMarker>, ghost owner: map<int, BoldOrItalicMarker>)
    requires Holds(ts, Drop(w, dead), ms) && UniqueIds(w)
    requires k < |ts| && MatchedClose(w[k]) && w[k].id !in dead
    requires ts[k].Emphasis? && ts[k].marker.partner != null
    requires Owners(owner, dead, ms) && w[k].id in owner
    modifies ts[k].marker, ts[k].marker.partner
    ensures Holds(ts, Drop(w, dead + {w[k].id}), ms)
    ensures Owners(owner, dead + {w[k].id}, ms)
  {
    ghost var i := PairPositions(ts, k, w, dead, ms);
    OpenerIsUnique(ts, w, dead, ms, ts[k].marker.partner, owner[w[k].id]);
    UnmatchPair(ts, k, w, dead, ms);
  }

  /** What one more token means for the lists and functions that the second pass follows. */
  lemma SecondStep(rest: seq<Tok>, st: IdStack, dead: set<int>, open: map<int, Kind>, least: int)
    requires rest != [] && Paired(rest, open) && Ascending(rest, least)
    ensures var t, after := rest[0], rest[1..];
      && (MatchedOpen(t) ==>
            && least <= t.id && Paired(after, open[t.id := Kind(t.ch, t.size)]) && Ascending(after, t.id + 1)
            && Second(rest, st, dead) == Second(after, Push(t.id, st), dead))
      && (MatchedClose(t) ==>
            && t.id in open && Paired(after, open - {t.id}) && Ascending(after, least)
            && Second(rest, st, dead) == if st.Push? && st.id == t.id then Second(after, Clean(st.below, dead), dead)
                                         else Second(after, st, dead + {t.id}))
      && (!MatchedOpen(t) && !MatchedClose(t) ==>
            Paired(after, open) && Ascending(after, least) && Second(rest, st, dead) == Second(after, st, dead))
  {
  }

  /** The token at the front of the pass has not been unmatched. */
  lemma FrontIsAlive(w: seq<Tok>, k: nat, dead: set<int>, open: map<int, Kind>, least: int)
    requires k < |w| && Paired(w[k..], open) && Ascending(w[k..], least)
    requires open.Keys !! dead && forall d :: d in dead ==> d < least
    ensures DropTok(w[k], dead) == w[k]
  {
  }

  lemma OwnerPushed(owner: map<int, BoldOrItalicMarker>, dead: set<int>, ms: set<BoldOrItalicMarker>,
                    m: BoldOrItalicMarker)
    requires Owners(owner, dead, ms)
    requires m in ms && m.open && m.partner != null && m.id !in dead
    ensures Owners(owner[m.id := m], dead, ms)
  {
  }

  /** Pops the top opener and every unmatched opener under it. */
  method PopMatched(stack: Stack<BoldOrItalicMarker>, ghost st: IdStack,
                    ghost owner: map<int, BoldOrItalicMarker>, ghost dead: set<int>,
                    ghost ms: set<BoldOrItalicMarker>)
    returns (stack': Stack<BoldOrItalicMarker>)
    requires StackIs(stack, st, owner) && Owners(owner, dead, ms) && st.Push?
    ensures StackIs(stack', Clean(st.below, dead), owner)
  {
    stack' := stack.below;
    ghost var rest := st.below;
    while stack'.Top? && stack'.top.partner == null
      invariant StackIs(stack', rest, owner)
      invariant Clean(rest, dead) == Clean(st.below, dead)
      decreases stack'
    {
      stack', rest := stack'.below, rest.below;
    }
    assert rest.Push? ==> rest.id !in dead;
  }

  /** The ghost side of the second pass. */
  datatype Sweep = Sweep(st: IdStack, dead: set<int>, open: map<int, Kind>, least: int,
                         owner: map<int, BoldOrItalicMarker>)
  {
    /** The pass stands in front of `rest`, the tail of `w`. */
    ghost predicate Values(w: seq<Tok>, rest: seq<Tok>) {
      && UniqueIds(w)
      && |rest| <= |w| && rest == w[|w| - |rest|..]
      && Paired(rest, open) && Ascending(rest, least) && StackOk(st, dead, open, least)
      && (forall c :: c in owner ==> c < least)
    }

    /** The markers and the stack of markers are as the values say. */
    ghost predicate Objects(ts: seq<Token>, w: seq<Tok>, stack: Stack<BoldOrItalicMarker>, ms: set<BoldOrItalicMarker>)
      reads ms
    {
      Holds(ts, Drop(w, dead), ms) && StackIs(stack, st, owner) && Owners(owner, dead, ms)
    }

    ghost predicate Valid(ts: seq<Token>, w: seq<Tok>, rest: seq<Tok>, stack: Stack<BoldOrItalicMarker>,
                          ms: set<BoldOrItalicMarker>)
      reads ms
    {
      Values(w, rest) && Objects(ts, w, stack, ms)
    }

    function Result(rest: seq<Tok>): set<int> {
      Second(rest, st, dead)
    }

    function Opened(t: Tok, m: BoldOrItalicMarker): Sweep
      requires t.Marker?
    {
      Sweep(Push(t.id, st), dead, open[t.id := Kind(t.ch, t.size)], t.id + 1, owner[t.id := m])
    }

    function Popped(c: int): Sweep
      requires st.Push?
    {
      Sweep(Clean(st.below, dead), dead, open - {c}, least, owner)
    }

    function Unmatched(c: int): Sweep {
      Sweep(st, dead + {c}, open - {c}, least, owner)
    }
  }

  lemma OpenerStep(g: Sweep, w: seq<Tok>, rest: seq<Tok>, m: BoldOrItalicMarker)
    requires g.Values(w, rest) && rest != [] && MatchedOpen(rest[0])
    ensures rest[0].id !in g.dead && rest[0].id !in g.owner
    ensures g.Opened(rest[0], m).Values(w, rest[1..])
    ensures g.Opened(rest[0], m).Result(rest[1..]) == g.Result(rest)
  {
    var t := rest[0];
    SecondStep(rest, g.st, g.dead, g.open, g.least);
    PushKeeps(g.st, g.dead, g.open, g.least, t.id, Kind(t.ch, t.size));
  }

  lemma CloserStep(g: Sweep, w: seq<Tok>, rest: seq<Tok>)
    requires g.Values(w, rest) && rest != [] && MatchedClose(rest[0])
    ensures g.st.Push? && rest[0].id in Ids(g.st) && rest[0].id !in g.dead && g.st.id !in g.dead
    ensures var c := rest[0].id;
            var g' := if g.st.id == c then g.Popped(c) else g.Unmatched(c);
            g'.Values(w, rest[1..]) && g'.Result(rest[1..]) == g.Result(rest)
  {
    var c := rest[0].id;
    SecondStep(rest, g.st, g.dead, g.open, g.least);
    TopIsLargest(g.st, g.dead, g.open, g.least, c);
    if g.st.id == c {
      PopKeeps(g.st, g.dead, g.open, g.least);
    } else {
      UnmatchKeeps(g.st, g.dead, g.open, g.least, c);
    }
  }

  lemma OtherStep(g: Sweep, w: seq<Tok>, rest: seq<Tok>)
    requires g.Values(w, rest) && rest != [] && !MatchedOpen(rest[0]) && !MatchedClose(rest[0])
    ensures g.Values(w, rest[1..]) && g.Result(rest[1..]) == g.Result(rest)
  {
    SecondStep(rest, g.st, g.dead, g.open, g.least);
  }

  lemma Visible(ts: seq<Token>, w: seq<Tok>, rest: seq<Tok>, stack: Stack<BoldOrItalicMarker>,
                ms: set<BoldOrItalicMarker>, g: Sweep)
    requires g.Valid(ts, w, rest, stack, ms) && rest != []
    ensures var k := |w| - |rest|; k < |ts| && w[k] == rest[0] && Views(ts[k], rest[0], ms) && rest[1..] == w[k + 1..]
  {
    var k := |w| - |rest|;
    FrontIsAlive(w, k, g.dead, g.open, g.least);
    assert Views(ts[k], Drop(w, g.dead)[k], ms);
  }

  lemma OpenerObjects(ts: seq<Token>, w: seq<Tok>, stack: Stack<BoldOrItalicMarker>,
                      ms: set<BoldOrItalicMarker>, g: Sweep, t: Tok, m: BoldOrItalicMarker)
    requires g.Objects(ts, w, stack, ms) && MatchedOpen(t) && t.id !in g.dead && t.id !in g.owner
    requires m in ms && m.View() == t
    ensures g.Opened(t, m).Objects(ts, w, Top(m, stack), ms)
  {
    OwnerPushed(g.owner, g.dead, ms, m);
    StackGrows(stack, g.st, g.owner, t.id, m);
  }

  /** At a matched closer the stack of markers has a top, and the top is matched. */
  lemma TopIsMatched(ts: seq<Token>, w: seq<Tok>, stack: Stack<BoldOrItalicMarker>,
                     ms: set<BoldOrItalicMarker>, g: Sweep)
    requires g.Objects(ts, w, stack, ms) && g.st.Push? && g.st.id !in g.dead
    ensures stack.Top? && stack.top in ms && stack.top.partner != null && stack.top.id == g.st.id
    ensures Ids(g.st) <= g.owner.Keys
  {
    StackedAreOwned(stack, g.st, g.owner);
  }

  /** The body of the second pass's loop, at the token `k`. */
  method SweepToken(ts: seq<Token>, k: nat, openMatches: Stack<BoldOrItalicMarker>,
                    ghost w: seq<Tok>, ghost rest: seq<Tok>, ghost ms: set<BoldOrItalicMarker>, ghost g: Sweep)
    returns (openMatches': Stack<BoldOrItalicMarker>, ghost g': Sweep)
    requires k < |ts| && k == |w| - |rest| && rest != []
    requires g.Valid(ts, w, rest, openMatches, ms)
    modifies ms
    ensures g'.Valid(ts, w, rest[1..], openMatches', ms)
    ensures g'.Result(rest[1..]) == g.Result(rest)
  {
    openMatches' := openMatches;
    Visible(ts, w, rest, openMatches, ms, g);
    ghost var t := rest[0];
    if ts[k].Emphasis? && ts[k].marker.IsMatchedOpenMarker() {
      OpenerStep(g, w, rest, ts[k].marker);
      OpenerObjects(ts, w, openMatches, ms, g, t, ts[k].marker);
      openMatches' := Top(ts[k].marker, openMatches);
      g' := g.Opened(t, ts[k].marker);
    } else if ts[k].Emphasis? && ts[k].marker.IsMatchedCloseMarker() {
      CloserStep(g, w, rest);
      TopIsMatched(ts, w, openMatches, ms, g);
      if ts[k].marker.id != openMatches.top.id {
        UnmatchAt(ts, k, w, g.dead, ms, g.owner);
        g' := g.Unmatched(t.id);
      } else {
        openMatches' := PopMatched(openMatches, g.st, g.owner, g.dead, ms);
        g' := g.Popped(t.id);
      }
    } else {
      OtherStep(g, w, rest);
      g' := g;
    }
  }

  /** The second pass: unmatches the pairs that cross. */
  method UnmatchCrossing(ts: seq<Token>, ghost w: seq<Tok>, ghost ms: set<BoldOrItalicMarker>)
    requires Holds(ts, w, ms)
    requires Paired(w, map[]) && Ascending(w, 0)
    modifies ms
    ensures Holds(ts, Unnest(w), ms)
  {
    SoundByPosition(w);
    var openMatches: Stack<BoldOrItalicMarker> := Bottom;
    var k := 0;
    ghost var rest := w;
    ghost var g := Sweep(Empty, {}, map[], 0, map[]);
    assert Drop(w, {}) == w && w[0..] == w;
    while k < |ts|
      invariant k == |w| - |rest| && |ts| == |w|
      invariant g.Valid(ts, w, rest, openMatches, ms)
      invariant g.Result(rest) == Second(w, Empty, {})
      decreases |rest|
    {
      openMatches, g := SweepToken(ts, k, openMatches, w, rest, ms, g);
      k, rest := k + 1, rest[1..];
    }
  }

  // ---------------------------------------------------------------- both passes

  /** Resolves the emphasis of a token list: afterwards the matched markers nest, the tags they
      write balance, and the list still stands for the same texts and characters. */
  method ResolveEmphasis(tgt: seq<Token>, ghost s: seq<Tok>, ghost ms: set<BoldOrItalicMarker>)
    returns (ts: seq<Token>, ghost r: seq<Tok>, ghost ms': set<BoldOrItalicMarker>)
    requires Holds(tgt, s, ms)
    requires Untouched(s) && AllSane(s) && Ends(s)
    modifies ms
    ensures Holds(ts, r, ms')
    ensures Walk(s, 0).Some? && r == Resolve(s)
    ensures AllSane(r) && WellNested(r, Empty) && Balanced(AllTags(r)) && Content(r) == Content(s)
  {
    ts, ms' := MatchMarkers(tgt, s, ms);
    ghost var w := Walk(s, 0).value;
    FirstPass(s);
    UnmatchCrossing(ts, w, ms');
    r := Unnest(w);
    BothPasses(s);
  }

  /** Container::writeAsHtml on such a list. */
  method WriteTokens(ts: seq<Token>, ghost vs: seq<Tok>, ghost ms: set<BoldOrItalicMarker>) returns (out: string)
    requires Holds(ts, vs, ms) && AllSane(vs)
    ensures out == HtmlOf(vs)
  {
    out := "";
    for i := 0 to |ts|
      invariant out + HtmlOf(vs[i..]) == HtmlOf(vs)
    {
      assert Views(ts[i], vs[i], ms) && Sane(vs[i]);
      var piece;
      match ts[i] {
        case Other(text) => piece := EncodeString(text, TEXT);
        case Emphasis(m) => piece := m.WriteAsHtml();
      }
      HtmlStep(vs[i..], out);
      out := out + piece;
      assert vs[i..][1..] == vs[i + 1..];
    }
    assert vs[|ts|..] == [];
  }
}
