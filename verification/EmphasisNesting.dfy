/** The second pass, which unmatches crossing pairs, on values.

    A pair is named by its id. The pass walks the list with a stack of matched openers, cleaned
    lazily of openers that have been unmatched meanwhile; `Second` computes the ids it unmatches. */
module EmphasisNesting {
  import opened EmphasisTokens
  import opened EmphasisPairing

  datatype IdStack = Empty | Push(id: int, below: IdStack)

  function Ids(st: IdStack): set<int> {
    match st
    case Empty => {}
    case Push(id, below) => {id} + Ids(below)
  }

  /** Pops unmatched openers off the top. */
  function Clean(st: IdStack, dead: set<int>): IdStack {
    if st.Push? && st.id in dead then Clean(st.below, dead) else st
  }

  /** The ids that the pass unmatches, `dead` being those unmatched so far. */
  function Second(s: seq<Tok>, st: IdStack, dead: set<int>): set<int>
    decreases |s|
  {
    if s == [] then dead
    else if MatchedOpen(s[0]) then Second(s[1..], Push(s[0].id, st), dead)
    else if MatchedClose(s[0]) then
      if st.Push? && st.id == s[0].id then Second(s[1..], Clean(st.below, dead), dead)
      else Second(s[1..], st, dead + {s[0].id})
    else Second(s[1..], st, dead)
  }

  /** Whenever a matched closer is reached there is a top of the stack, and it is still matched. */
  predicate TopAlwaysMatched(s: seq<Tok>, st: IdStack, dead: set<int>)
    decreases |s|
  {
    if s == [] then true
    else if MatchedOpen(s[0]) then TopAlwaysMatched(s[1..], Push(s[0].id, st), dead)
    else if MatchedClose(s[0]) then
      && st.Push? && st.id !in dead
      && if st.id == s[0].id then TopAlwaysMatched(s[1..], Clean(st.below, dead), dead)
         else TopAlwaysMatched(s[1..], st, dead + {s[0].id})
    else TopAlwaysMatched(s[1..], st, dead)
  }

  /** The ids of the openers on the stack fall from the top down, starting below `bound`. */
  predicate Falling(st: IdStack, bound: int) {
    st.Push? ==> st.id < bound && Falling(st.below, st.id)
  }

  /** The stack holds the openers that wait for their closer, and among them only unmatched
      ones; the top is never one of those. */
  ghost predicate StackOk(st: IdStack, dead: set<int>, open: map<int, Kind>, least: int) {
    && Falling(st, least)
    && Ids(st) - dead == open.Keys
    && (st.Push? ==> st.id !in dead)
    && (forall d :: d in dead ==> d < least)
  }

  lemma {:induction false} FallingBelow(st: IdStack, bound: int)
    requires Falling(st, bound)
    ensures forall k :: k in Ids(st) ==> k < bound
    decreases st
  {
    if st.Push? {
      FallingBelow(st.below, st.id);
    }
  }

  lemma FallingWeakens(st: IdStack, bound: int, bound': int)
    requires Falling(st, bound) && bound <= bound'
    ensures Falling(st, bound')
  {
  }

  lemma {:induction false} CleanKeeps(st: IdStack, dead: set<int>, bound: int)
    requires Falling(st, bound)
    ensures Falling(Clean(st, dead), bound)
    ensures Ids(Clean(st, dead)) - dead == Ids(st) - dead
    ensures Clean(st, dead).Push? ==> Clean(st, dead).id !in dead
    decreases st
  {
    if st.Push? && st.id in dead {
      CleanKeeps(st.below, dead, st.id);
      FallingWeakens(Clean(st.below, dead), st.id, bound);
    }
  }

  /** The top of the stack is the waiting opener with the largest id. */
  lemma TopIsLargest(st: IdStack, dead: set<int>, open: map<int, Kind>, least: int, c: int)
    requires StackOk(st, dead, open, least) && c in open
    ensures st.Push? && st.id in open && c <= st.id
    ensures forall d :: d in open ==> d <= st.id
  {
    assert c in Ids(st);
    FallingBelow(st.below, st.id);
    assert st.id in Ids(st) - dead;
    assert forall d :: d in open ==> d in Ids(st);
  }

  // ---------------------------------------------------------------- one step of the pass

  lemma PushKeeps(st: IdStack, dead: set<int>, open: map<int, Kind>, least: int, id: int, k: Kind)
    requires StackOk(st, dead, open, least) && least <= id
    ensures StackOk(Push(id, st), dead, open[id := k], id + 1)
  {
    FallingWeakens(st, least, id);
  }

  lemma PopKeeps(st: IdStack, dead: set<int>, open: map<int, Kind>, least: int)
    requires StackOk(st, dead, open, least) && st.Push?
    ensures StackOk(Clean(st.below, dead), dead, open - {st.id}, least)
  {
    CleanKeeps(st.below, dead, st.id);
    FallingBelow(st.below, st.id);
    FallingWeakens(Clean(st.below, dead), st.id, least);
  }

  lemma UnmatchKeeps(st: IdStack, dead: set<int>, open: map<int, Kind>, least: int, c: int)
    requires StackOk(st, dead, open, least) && c in open && st.Push? && st.id != c
    ensures StackOk(st, dead + {c}, open - {c}, least)
  {
    FallingBelow(st, least);
    assert c in Ids(st);
  }

  /** `top()` is safe: the pass never looks at an empty stack or at an unmatched opener. */
  lemma {:induction false} TopIsSafe(s: seq<Tok>, st: IdStack, dead: set<int>, open: map<int, Kind>, least: int)
    requires Paired(s, open) && Ascending(s, least) && StackOk(st, dead, open, least)
    ensures TopAlwaysMatched(s, st, dead)
    decreases |s|
  {
    if s != [] {
      var t := s[0];
      if MatchedOpen(t) {
        PushKeeps(st, dead, open, least, t.id, Kind(t.ch, t.size));
        TopIsSafe(s[1..], Push(t.id, st), dead, open[t.id := Kind(t.ch, t.size)], t.id + 1);
      } else if MatchedClose(t) {
        TopIsLargest(st, dead, open, least, t.id);
        if st.id == t.id {
          PopKeeps(st, dead, open, least);
          TopIsSafe(s[1..], Clean(st.below, dead), dead, open - {t.id}, least);
        } else {
          UnmatchKeeps(st, dead, open, least, t.id);
          TopIsSafe(s[1..], st, dead + {t.id}, open - {t.id}, least);
        }
      } else {
        TopIsSafe(s[1..], st, dead, open, least);
      }
    }
  }

  // ---------------------------------------------------------------- which pairs are unmatched

  /** Without a stack: a pair is crossed when, at its closer, a later opener still waits. */
  function CrossedIds(s: seq<Tok>, open: set<int>): set<int>
    decreases |s|
  {
    if s == [] then {}
    else if MatchedOpen(s[0]) then CrossedIds(s[1..], open + {s[0].id})
    else if MatchedClose(s[0]) then
      (if exists d :: d in open && d > s[0].id then {s[0].id} else {}) + CrossedIds(s[1..], open - {s[0].id})
    else CrossedIds(s[1..], open)
  }

  /** The stack computes exactly that. */
  lemma {:induction false} SecondIsCrossed(s: seq<Tok>, st: IdStack, dead: set<int>, open: map<int, Kind>, least: int)
    requires Paired(s, open) && Ascending(s, least) && StackOk(st, dead, open, least)
    ensures Second(s, st, dead) == dead + CrossedIds(s, open.Keys)
    decreases |s|
  {
    if s != [] {
      var t := s[0];
      if MatchedOpen(t) {
        var open' := open[t.id := Kind(t.ch, t.size)];
        PushKeeps(st, dead, open, least, t.id, Kind(t.ch, t.size));
        SecondIsCrossed(s[1..], Push(t.id, st), dead, open', t.id + 1);
        assert open'.Keys == open.Keys + {t.id};
      } else if MatchedClose(t) {
        TopIsLargest(st, dead, open, least, t.id);
        assert (open - {t.id}).Keys == open.Keys - {t.id};
        if st.id == t.id {
          PopKeeps(st, dead, open, least);
          SecondIsCrossed(s[1..], Clean(st.below, dead), dead, open - {t.id}, least);
        } else {
          assert st.id in open.Keys && st.id > t.id;
          UnmatchKeeps(st, dead, open, least, t.id);
          SecondIsCrossed(s[1..], st, dead + {t.id}, open - {t.id}, least);
        }
      } else {
        SecondIsCrossed(s[1..], st, dead, open, least);
      }
    }
  }

  // ---------------------------------------------------------------- the result nests

  function Unmatch(t: Tok): Tok
    requires t.Marker?
  {
    t.(id := -1)
  }

  function DropTok(t: Tok, dead: set<int>): Tok {
    if t.Marker? && t.id >= 0 && t.id in dead then Unmatch(t) else t
  }

  /** The list with the pairs in `dead` unmatched. */
  function Drop(s: seq<Tok>, dead: set<int>): (r: seq<Tok>)
    ensures |r| == |s|
  {
    seq(|s|, i requires 0 <= i < |s| => DropTok(s[i], dead))
  }

  /** The second pass as a whole. */
  function Unnest(s: seq<Tok>): seq<Tok> {
    Drop(s, Second(s, Empty, {}))
  }

  /** Reading the matched markers as brackets, every closer meets its own partner as the
      innermost open bracket, and none stays open. */
  predicate WellNested(s: seq<Tok>, st: IdStack)
    decreases |s|
  {
    if s == [] then st.Empty?
    else if MatchedOpen(s[0]) then WellNested(s[1..], Push(s[0].id, st))
    else if MatchedClose(s[0]) then st.Push? && st.id == s[0].id && WellNested(s[1..], st.below)
    else WellNested(s[1..], st)
  }

  /** The stack without the ids in `dead`. */
  function Survivors(st: IdStack, dead: set<int>): IdStack {
    match st
    case Empty => Empty
    case Push(id, below) => if id in dead then Survivors(below, dead) else Push(id, Survivors(below, dead))
  }

  lemma {:induction false} CleanSurvives(st: IdStack, dead: set<int>, all: set<int>)
    requires dead <= all
    ensures Survivors(Clean(st, dead), all) == Survivors(st, all)
    decreases st
  {
    if st.Push? && st.id in dead {
      CleanSurvives(st.below, dead, all);
    }
  }

  lemma {:induction false} NoneSurvive(st: IdStack, dead: set<int>)
    requires Ids(st) <= dead
    ensures Survivors(st, dead) == Empty
    decreases st
  {
    if st.Push? {
      NoneSurvive(st.below, dead);
    }
  }

  lemma {:induction false} SecondGrows(s: seq<Tok>, st: IdStack, dead: set<int>)
    ensures dead <= Second(s, st, dead)
    decreases |s|
  {
    if s != [] {
      var t := s[0];
      if MatchedOpen(t) { SecondGrows(s[1..], Push(t.id, st), dead); }
      else if MatchedClose(t) {
        if st.Push? && st.id == t.id { SecondGrows(s[1..], Clean(st.below, dead), dead); }
        else { SecondGrows(s[1..], st, dead + {t.id}); }
      } else { SecondGrows(s[1..], st, dead); }
    }
  }

  /** Only pairs that are still open, or open later, can still be unmatched. */
  lemma {:induction false} CrossedAreAhead(s: seq<Tok>, open: map<int, Kind>, least: int)
    requires Paired(s, open) && Ascending(s, least)
    ensures forall c :: c in CrossedIds(s, open.Keys) ==> c in open || c >= least
    decreases |s|
  {
    if s != [] {
      var t := s[0];
      if MatchedOpen(t) {
        var open' := open[t.id := Kind(t.ch, t.size)];
        assert open'.Keys == open.Keys + {t.id};
        CrossedAreAhead(s[1..], open', t.id + 1);
      } else if MatchedClose(t) {
        assert (open - {t.id}).Keys == open.Keys - {t.id};
        CrossedAreAhead(s[1..], open - {t.id}, least);
      } else {
        CrossedAreAhead(s[1..], open, least);
      }
    }
  }

  lemma DropTail(s: seq<Tok>, dead: set<int>)
    requires s != []
    ensures Drop(s, dead)[0] == DropTok(s[0], dead) && Drop(s, dead)[1..] == Drop(s[1..], dead)
  {
  }

  /** A pair that is popped at its own closer is never unmatched later. */
  lemma KeptForGood(s: seq<Tok>, st: IdStack, dead: set<int>, open: map<int, Kind>, least: int)
    requires s != [] && MatchedClose(s[0]) && st.Push? && st.id == s[0].id
    requires Paired(s, open) && Ascending(s, least) && StackOk(st, dead, open, least)
    ensures s[0].id !in Second(s, st, dead)
  {
    var c := s[0].id;
    PopKeeps(st, dead, open, least);
    SecondIsCrossed(s[1..], Clean(st.below, dead), dead, open - {c}, least);
    CrossedAreAhead(s[1..], open - {c}, least);
  }

  lemma {:induction false} SecondNests(s: seq<Tok>, st: IdStack, dead: set<int>, open: map<int, Kind>, least: int)
    requires Paired(s, open) && Ascending(s, least) && StackOk(st, dead, open, least)
    ensures var all := Second(s, st, dead); WellNested(Drop(s, all), Survivors(st, all))
    decreases |s|
  {
    var all := Second(s, st, dead);
    SecondGrows(s, st, dead);
    if s == [] {
      assert forall k :: k in Ids(st) ==> k in dead || k in Ids(st) - dead;
      NoneSurvive(st, dead);
    } else {
      var t := s[0];
      DropTail(s, all);
      if MatchedOpen(t) {
        PushKeeps(st, dead, open, least, t.id, Kind(t.ch, t.size));
        SecondNests(s[1..], Push(t.id, st), dead, open[t.id := Kind(t.ch, t.size)], t.id + 1);
      } else if MatchedClose(t) {
        TopIsLargest(st, dead, open, least, t.id);
        if st.id == t.id {
          PopKeeps(st, dead, open, least);
          SecondNests(s[1..], Clean(st.below, dead), dead, open - {t.id}, least);
          CleanSurvives(st.below, dead, all);
          KeptForGood(s, st, dead, open, least);
        } else {
          UnmatchKeeps(st, dead, open, least, t.id);
          SecondNests(s[1..], st, dead + {t.id}, open - {t.id}, least);
          SecondGrows(s[1..], st, dead + {t.id});
        }
      } else {
        SecondNests(s[1..], st, dead, open, least);
      }
    }
  }

  /** After the second pass the matched markers form a well-nested bracket word. */
  lemma UnnestNests(s: seq<Tok>)
    requires Paired(s, map[]) && Ascending(s, 0)
    ensures WellNested(Unnest(s), Empty)
  {
    SecondNests(s, Empty, {}, map[], 0);
  }

  // ---------------------------------------------------------------- nested lists are left alone

  lemma {:induction false} NestedHasNoCrossing(s: seq<Tok>, st: IdStack)
    requires WellNested(s, st)
    ensures Second(s, st, {}) == {}
    decreases |s|
  {
    if s != [] {
      var t := s[0];
      if MatchedOpen(t) {
        NestedHasNoCrossing(s[1..], Push(t.id, st));
      } else if MatchedClose(t) {
        assert Clean(st.below, {}) == st.below;
        NestedHasNoCrossing(s[1..], st.below);
      } else {
        NestedHasNoCrossing(s[1..], st);
      }
    }
  }

  /** A list whose pairs already nest is left unchanged. */
  lemma NestedIsKept(s: seq<Tok>)
    requires WellNested(s, Empty)
    ensures Unnest(s) == s
  {
    NestedHasNoCrossing(s, Empty);
  }

  // ---------------------------------------------------------------- what unmatching preserves

  /** Unmatching whole pairs leaves the other pairs sound. */
  lemma {:induction false} DropPairs(s: seq<Tok>, open: map<int, Kind>, dead: set<int>)
    requires Paired(s, open)
    ensures Paired(Drop(s, dead), open - dead)
    decreases |s|
  {
    if s != [] {
      var t := s[0];
      DropTail(s, dead);
      if MatchedOpen(t) {
        var open' := open[t.id := Kind(t.ch, t.size)];
        DropPairs(s[1..], open', dead);
        if t.id in dead {
          assert open' - dead == open - dead;
        } else {
          assert open' - dead == (open - dead)[t.id := Kind(t.ch, t.size)];
        }
      } else if MatchedClose(t) {
        DropPairs(s[1..], open - {t.id}, dead);
        assert open - {t.id} - dead == open - dead - {t.id};
        if t.id in dead {
          assert open - dead - {t.id} == open - dead;
        }
      } else {
        DropPairs(s[1..], open, dead);
      }
    }
  }

  lemma {:induction false} DropAscends(s: seq<Tok>, least: int, least': int, dead: set<int>)
    requires Ascending(s, least) && least' <= least
    ensures Ascending(Drop(s, dead), least')
    decreases |s|
  {
    if s != [] {
      var t := s[0];
      DropTail(s, dead);
      if MatchedOpen(t) {
        DropAscends(s[1..], t.id + 1, if t.id in dead then least' else t.id + 1, dead);
      } else {
        DropAscends(s[1..], least, least', dead);
      }
    }
  }

  lemma {:induction false} DropConserves(s: seq<Tok>, dead: set<int>)
    ensures Content(Drop(s, dead)) == Content(s)
    decreases |s|
  {
    if s != [] {
      DropTail(s, dead);
      DropConserves(s[1..], dead);
    }
  }

  lemma DropSane(s: seq<Tok>, dead: set<int>)
    requires AllSane(s)
    ensures AllSane(Drop(s, dead))
  {
  }

  // ---------------------------------------------------------------- crossing, by positions

  /** The markers at `i` and `j` are partners. */
  predicate Pair(s: seq<Tok>, i: int, j: int) {
    0 <= i < j < |s| && MatchedOpen(s[i]) && MatchedClose(s[j]) && s[i].id == s[j].id
  }

  /** The pair at `i` and `j` is crossed by a pair that opens inside and closes after it. */
  ghost predicate Crossed(s: seq<Tok>, i: int, j: int) {
    exists p, q :: Pair(s, p, q) && i < p < j < q
  }

  ghost predicate UniqueIds(s: seq<Tok>) {
    && (forall i, i' :: 0 <= i < i' < |s| && MatchedOpen(s[i]) && MatchedOpen(s[i']) ==> s[i].id < s[i'].id)
    && (forall j, j' :: 0 <= j < j' < |s| && MatchedClose(s[j]) && MatchedClose(s[j']) ==> s[j].id != s[j'].id)
  }

  /** The ids opened before position `k` and not closed before it. */
  ghost function Waiting(s: seq<Tok>, k: nat): set<int>
    requires k <= |s|
  {
    if k == 0 then {}
    else if MatchedOpen(s[k - 1]) then Waiting(s, k - 1) + {s[k - 1].id}
    else if MatchedClose(s[k - 1]) then Waiting(s, k - 1) - {s[k - 1].id}
    else Waiting(s, k - 1)
  }

  lemma {:induction false} WaitingPair(s: seq<Tok>, k: nat, p: int, q: int)
    requires UniqueIds(s) && k <= |s| && Pair(s, p, q)
    ensures s[p].id in Waiting(s, k) <==> p < k <= q
    decreases k
  {
    if k > 0 {
      WaitingPair(s, k - 1, p, q);
    }
  }

  /** An opener that waits is closed later, by a closer of its kind. */
  lemma {:induction false} WaitingIsClosed(s: seq<Tok>, open: map<int, Kind>, c: int) returns (j: int)
    requires Paired(s, open) && c in open
    ensures 0 <= j < |s| && MatchedClose(s[j]) && s[j].id == c && Kind(s[j].ch, s[j].size) == open[c]
    decreases |s|
  {
    var t := s[0];
    if MatchedClose(t) && t.id == c {
      j := 0;
    } else {
      var open' := if MatchedOpen(t) then open[t.id := Kind(t.ch, t.size)]
                   else if MatchedClose(t) then open - {t.id} else open;
      j := WaitingIsClosed(s[1..], open', c);
      j := j + 1;
    }
  }

  /** The openers that wait at position `i`. */
  lemma {:induction false} PairedFrom(s: seq<Tok>, open: map<int, Kind>, i: nat) returns (open': map<int, Kind>)
    requires Paired(s, open) && i <= |s|
    ensures Paired(s[i..], open') && (i == 0 ==> open' == open)
    ensures i > 0 && MatchedOpen(s[i - 1]) ==>
              s[i - 1].id in open' && open'[s[i - 1].id] == Kind(s[i - 1].ch, s[i - 1].size)
    ensures i > 0 && MatchedClose(s[i - 1]) ==> s[i - 1].id !in open'
    decreases i
  {
    if i == 0 {
      open' := open;
      assert s[0..] == s;
    } else {
      var t := s[0];
      var next := if MatchedOpen(t) then open[t.id := Kind(t.ch, t.size)]
                  else if MatchedClose(t) then open - {t.id} else open;
      open' := PairedFrom(s[1..], next, i - 1);
      assert s[1..][i - 1..] == s[i..];
    }
  }

  lemma OpenerHasCloser(s: seq<Tok>, i: int) returns (j: int)
    requires Paired(s, map[]) && 0 <= i < |s| && MatchedOpen(s[i])
    ensures Pair(s, i, j) && Kind(s[i].ch, s[i].size) == Kind(s[j].ch, s[j].size)
  {
    var open' := PairedFrom(s, map[], i + 1);
    j := WaitingIsClosed(s[i + 1..], open', s[i].id);
    j := j + i + 1;
  }

  lemma {:induction false} WaitingHasPair(s: seq<Tok>, k: nat, d: int) returns (p: int, q: int)
    requires Paired(s, map[]) && k <= |s| && d in Waiting(s, k)
    ensures Pair(s, p, q) && s[p].id == d
    decreases k
  {
    if MatchedOpen(s[k - 1]) && s[k - 1].id == d {
      p := k - 1;
      q := OpenerHasCloser(s, p);
    } else {
      p, q := WaitingHasPair(s, k - 1, d);
    }
  }

  lemma WaitingCrosses(s: seq<Tok>, i: int, j: int, d: int)
    requires Paired(s, map[]) && UniqueIds(s) && Pair(s, i, j)
    requires d in Waiting(s, j) && d > s[j].id
    ensures Crossed(s, i, j)
  {
    var p, q := WaitingHasPair(s, j, d);
    WaitingPair(s, j, p, q);
    assert i < p < j < q;
  }

  lemma CrosserWaits(s: seq<Tok>, i: int, j: int)
    requires UniqueIds(s) && Pair(s, i, j) && Crossed(s, i, j)
    ensures exists d :: d in Waiting(s, j) && d > s[j].id
  {
    var p, q :| Pair(s, p, q) && i < p < j < q;
    WaitingPair(s, j, p, q);
  }

  lemma CrossedAtCloser(s: seq<Tok>, i: int, j: int)
    requires Paired(s, map[]) && UniqueIds(s) && Pair(s, i, j)
    ensures (exists d :: d in Waiting(s, j) && d > s[j].id) <==> Crossed(s, i, j)
  {
    if d :| d in Waiting(s, j) && d > s[j].id {
      WaitingCrosses(s, i, j, d);
    } else if Crossed(s, i, j) {
      CrosserWaits(s, i, j);
    }
  }

  lemma {:induction false} CrossedIdsAt(s: seq<Tok>, k: nat, i: int, j: int)
    requires Paired(s, map[]) && UniqueIds(s) && k <= |s| && Pair(s, i, j)
    ensures s[j].id in CrossedIds(s[k..], Waiting(s, k)) <==> k <= j && Crossed(s, i, j)
    decreases |s| - k
  {
    if k < |s| {
      CrossedIdsAt(s, k + 1, i, j);
      assert s[k..][1..] == s[k + 1..];
      if k == j {
        CrossedAtCloser(s, i, j);
      }
    }
  }

  // ---------------------------------------------------------------- sound lists have unique ids

  lemma {:induction false} AscendingIds(s: seq<Tok>, least: int, i: int)
    requires Ascending(s, least) && 0 <= i < |s| && MatchedOpen(s[i])
    ensures least <= s[i].id
    ensures forall i' :: i < i' < |s| && MatchedOpen(s[i']) ==> s[i].id < s[i'].id
    decreases |s|
  {
    var least' := if MatchedOpen(s[0]) then s[0].id + 1 else least;
    if i > 0 {
      AscendingIds(s[1..], least', i - 1);
      forall i' | i < i' < |s| && MatchedOpen(s[i']) ensures s[i].id < s[i'].id {
        assert s[1..][i' - 1] == s[i'];
      }
    } else {
      forall i' | 0 < i' < |s| && MatchedOpen(s[i']) ensures s[0].id < s[i'].id {
        AscendingIds(s[1..], least', i' - 1);
      }
    }
  }

  /** A closer whose opener is not waiting at the start has its opener in the list. */
  lemma {:induction false} CloserHasOpener(s: seq<Tok>, open: map<int, Kind>, j: int) returns (i: int)
    requires Paired(s, open) && 0 <= j < |s| && MatchedClose(s[j]) && s[j].id !in open
    ensures 0 <= i < j && MatchedOpen(s[i]) && s[i].id == s[j].id
    decreases |s|
  {
    var t := s[0];
    if MatchedOpen(t) && t.id == s[j].id {
      i := 0;
    } else {
      var open' := if MatchedOpen(t) then open[t.id := Kind(t.ch, t.size)]
                   else if MatchedClose(t) then open - {t.id} else open;
      i := CloserHasOpener(s[1..], open', j - 1);
      i := i + 1;
    }
  }

  lemma ClosersDiffer(s: seq<Tok>, j: int, j': int)
    requires Paired(s, map[]) && Ascending(s, 0)
    requires 0 <= j < j' < |s| && MatchedClose(s[j]) && MatchedClose(s[j'])
    ensures s[j].id != s[j'].id
  {
    if s[j].id == s[j'].id {
      var i := CloserHasOpener(s, map[], j);
      var open' := PairedFrom(s, map[], j + 1);
      var i' := CloserHasOpener(s[j + 1..], open', j' - j - 1);
      AscendingIds(s, 0, i);
    }
  }

  /** A sound list in terms of positions: ids name pairs and partners agree in character and size. */
  lemma SoundByPosition(s: seq<Tok>)
    requires Paired(s, map[]) && Ascending(s, 0)
    ensures UniqueIds(s)
    ensures forall i, j :: Pair(s, i, j) ==> s[i].ch == s[j].ch && s[i].size == s[j].size
  {
    forall i, i' | 0 <= i < i' < |s| && MatchedOpen(s[i]) && MatchedOpen(s[i']) ensures s[i].id < s[i'].id {
      AscendingIds(s, 0, i);
    }
    forall j, j' | 0 <= j < j' < |s| && MatchedClose(s[j]) && MatchedClose(s[j']) ensures s[j].id != s[j'].id {
      ClosersDiffer(s, j, j');
    }
    forall i, j | Pair(s, i, j) ensures s[i].ch == s[j].ch && s[i].size == s[j].size {
      var j' := OpenerHasCloser(s, i);
    }
  }

  /** Every matched marker of a sound list has its partner on the right side of it. */
  lemma PartnersExist(s: seq<Tok>)
    requires Paired(s, map[])
    ensures forall i :: 0 <= i < |s| && MatchedOpen(s[i]) ==> exists j :: Pair(s, i, j)
    ensures forall j :: 0 <= j < |s| && MatchedClose(s[j]) ==> exists i :: Pair(s, i, j)
  {
    forall i | 0 <= i < |s| && MatchedOpen(s[i]) ensures exists j :: Pair(s, i, j) {
      var j := OpenerHasCloser(s, i);
    }
    forall j | 0 <= j < |s| && MatchedClose(s[j]) ensures exists i :: Pair(s, i, j) {
      var i := CloserHasOpener(s, map[], j);
      assert Pair(s, i, j);
    }
  }

  /** The second pass unmatches exactly the pairs that are crossed by a pair which opens inside
      and closes after them, and changes nothing else. */
  lemma UnnestRemovesExactlyTheCrossed(s: seq<Tok>)
    requires Paired(s, map[]) && Ascending(s, 0)
    ensures forall i, j :: Pair(s, i, j) ==>
      && Unnest(s)[i] == (if Crossed(s, i, j) then Unmatch(s[i]) else s[i])
      && Unnest(s)[j] == (if Crossed(s, i, j) then Unmatch(s[j]) else s[j])
    ensures forall k :: 0 <= k < |s| && !MatchedOpen(s[k]) && !MatchedClose(s[k]) ==> Unnest(s)[k] == s[k]
  {
    SoundByPosition(s);
    var none: map<int, Kind> := map[];
    SecondIsCrossed(s, Empty, {}, none, 0);
    forall i, j | Pair(s, i, j)
      ensures s[j].id in Second(s, Empty, {}) <==> Crossed(s, i, j)
    {
      CrossedIdsAt(s, 0, i, j);
      assert s[0..] == s && none.Keys == {};
    }
  }

  /** Greedy matching by position: a closer of the same kind between two partners was taken by an
      earlier opener. */
  lemma GreedyByPosition(s: seq<Tok>, i: int, j: int, m: int)
    requires Greedy(s) && UniqueIds(s) && Pair(s, i, j) && i < m < j
    ensures Spared(s[m], Kind(s[i].ch, s[i].size), s[i].id)
  {
    GreedyFrom(s, i);
    var tail := s[i + 1..];
    forall n | 0 <= n < j - i - 1 ensures !(MatchedClose(tail[n]) && tail[n].id == s[i].id) {
      assert tail[n] == s[i + 1 + n];
    }
    NearestByPosition(tail, Kind(s[i].ch, s[i].size), s[i].id, j - i - 1, m - i - 1);
  }
}
