/** When the first matching pass ends.

    The pass is given here step by step, with its two iterators, and without any assumption on
    how it ends. It ends exactly when in none of its steps an opener of size 3 looks at an
    unmatched closer of size 3 and of the other character. `Walk` gives up (None) there. */
module EmphasisTermination {
  import opened EmphasisTokens
  import opened EmphasisMatching

  /** The state of the two nested loops. `pre` is the list before the outer iterator; the outer
      iterator stands on the first token of `rest`, or on `o` while the inner loop runs; `mid`
      lies between the two iterators and the inner one stands on the first token of `rest`. */
  datatype Machine =
    | Outer(pre: seq<Tok>, rest: seq<Tok>, id: nat)
    | Inner(pre: seq<Tok>, o: Tok, mid: seq<Tok>, rest: seq<Tok>, id: nat)
    | Halted(list: seq<Tok>)

  /** No marker is larger than 3, so the leftover sizes are never negative. */
  predicate Small(t: Tok) {
    t.Marker? ==> t.size <= 3
  }

  predicate AllSmall(s: seq<Tok>) {
    forall i :: 0 <= i < |s| ==> Small(s[i])
  }

  predicate MachineOk(m: Machine) {
    match m
    case Outer(_, rest, _) => AllSmall(rest)
    case Inner(_, o, mid, rest, _) => o.Marker? && Small(o) && AllSmall(mid) && AllSmall(rest)
    case Halted(_) => true
  }

  /** One turn of the inner or the outer loop. */
  function Tick(m: Machine): (m': Machine)
    requires MachineOk(m)
    ensures MachineOk(m')
  {
    match m
    case Halted(_) => m
    case Outer(pre, rest, id) =>
      if rest == [] then Halted(pre)
      else if UnmatchedOpen(rest[0]) then Inner(pre, rest[0], [], rest[1..], id)
      else Outer(pre + [rest[0]], rest[1..], id)
    case Inner(pre, o, mid, rest, id) =>
      if rest == [] then Outer(pre + [o], mid, id)
      else
        var t := rest[0];
        if !UnmatchedClose(t) then Inner(pre, o, mid + [t], rest[1..], id)
        else if t.size == 3 && o.size != 3 then
          Inner(pre, o, mid + [Disable(t)], SplitCloser(t, o.size) + rest[1..], id)
        else if t.ch == o.ch && t.size == o.size then
          Outer(pre + [o.(id := id)], mid + [t.(id := id)] + rest[1..], id + 1)
        else if o.size == 3 then Outer(pre + [Disable(o)], SplitOpener(o, t.size) + mid + rest, id)
        else Inner(pre, o, mid + [t], rest[1..], id)
  }

  function Ticks(m: Machine, n: nat): Machine
    requires MachineOk(m)
    decreases n
  {
    if n == 0 then m else Ticks(Tick(m), n - 1)
  }

  lemma {:induction false} TicksAdd(m: Machine, a: nat, b: nat)
    requires MachineOk(m)
    ensures MachineOk(Ticks(m, a))
    ensures Ticks(m, a + b) == Ticks(Ticks(m, a), b)
    decreases a
  {
    if a > 0 {
      TicksAdd(Tick(m), a - 1, b);
    }
  }

  // ---------------------------------------------------------------- where Walk ends, the pass ends

  /** The machine state that a scan leads to. */
  function Landing(pre: seq<Tok>, o: Tok, mid: seq<Tok>, rest: seq<Tok>, id: nat, r: ScanResult): Machine
    requires o.Marker? && (r.SplitOpen? ==> r.closeSize <= 3)
  {
    match r
    case NotFound(tail) => Outer(pre + [o], mid + tail, id)
    case Found(tail) => Outer(pre + [o.(id := id)], mid + tail, id + 1)
    case SplitOpen(size) => Outer(pre + [Disable(o)], SplitOpener(o, size) + mid + rest, id)
    case Mixed => Outer(pre + [Disable(o)], SplitOpener(o, 3) + mid + rest, id)
  }

  lemma Slide(mid: seq<Tok>, t: Tok, s: seq<Tok>)
    ensures mid + [t] + s == mid + ([t] + s)
  {
  }

  lemma LandingSlides(pre: seq<Tok>, o: Tok, mid: seq<Tok>, t: Tok, rest: seq<Tok>, id: nat, r: ScanResult)
    requires o.Marker? && (r.SplitOpen? ==> r.closeSize <= 3)
    ensures Landing(pre, o, mid + [t], rest, id, r) == Landing(pre, o, mid, [t] + rest, id, ThenTail(t, r))
  {
    match r
    case NotFound(tail) => Slide(mid, t, tail);
    case Found(tail) => Slide(mid, t, tail);
    case SplitOpen(size) =>
      Slide(SplitOpener(o, size) + mid, t, rest);
      assert SplitOpener(o, size) + (mid + [t]) == SplitOpener(o, size) + mid + [t];
    case Mixed =>
      Slide(SplitOpener(o, 3) + mid, t, rest);
      assert SplitOpener(o, 3) + (mid + [t]) == SplitOpener(o, 3) + mid + [t];
  }

  lemma LandingForgetsRest(pre: seq<Tok>, o: Tok, mid: seq<Tok>, a: seq<Tok>, b: seq<Tok>, id: nat, r: ScanResult)
    requires o.Marker? && (r.NotFound? || r.Found?)
    ensures Landing(pre, o, mid, a, id, r) == Landing(pre, o, mid, b, id, r)
  {
  }

  lemma OneTick(m: Machine)
    requires MachineOk(m)
    ensures Ticks(m, 1) == Tick(m)
  {
    assert Ticks(Tick(m), 0) == Tick(m);
  }

  lemma OneMore(m: Machine, m': Machine, n: nat)
    requires MachineOk(m) && Tick(m) == m'
    ensures Ticks(m, n + 1) == Ticks(m', n)
  {
  }

  lemma PassTick(pre: seq<Tok>, o: Tok, mid: seq<Tok>, s: seq<Tok>, id: nat)
    requires o.Marker? && Small(o) && AllSmall(mid) && AllSmall(s) && s != []
    requires UnmatchedClose(s[0]) ==> s[0].size != 3 && o.size != 3 && !(s[0].ch == o.ch && s[0].size == o.size)
    ensures Tick(Inner(pre, o, mid, s, id)) == Inner(pre, o, mid + [s[0]], s[1..], id)
  {
  }

  /** The inner loop lands where the scan says. */
  lemma {:induction false} ScanTicks(pre: seq<Tok>, o: Tok, mid: seq<Tok>, s: seq<Tok>, id: nat) returns (n: nat)
    requires UnmatchedOpen(o) && Sane(o) && AllSane(s) && AllSmall(mid)
    ensures Scan(o, s, id).SplitOpen? ==> Scan(o, s, id).closeSize <= 3
    ensures Ticks(Inner(pre, o, mid, s, id), n) == Landing(pre, o, mid, s, id, Scan(o, s, id))
    decreases Weight(s)
  {
    if s == [] {
      assert mid + [] == mid;
      n := 1;
      OneTick(Inner(pre, o, mid, s, id));
    } else {
      var t := s[0];
      WeightHead(s);
      ScanWeight(o, s, id);
      if UnmatchedClose(t) && t.size == 3 && o.size != 3 {
        WeightTwo(Fresh(false, t.ch, 3 - o.size), Fresh(false, t.ch, o.size), s[1..]);
        var s' := SplitCloser(t, o.size) + s[1..];
        n := ScanTicks(pre, o, mid + [Disable(t)], s', id);
        n := n + 1;
        ScanWeight(o, s', id);
        LandingSlides(pre, o, mid, Disable(t), s', id, Scan(o, s', id));
        LandingForgetsRest(pre, o, mid, [Disable(t)] + s', s, id, Scan(o, s, id));
      } else if UnmatchedClose(t) && ((t.ch == o.ch && t.size == o.size) || o.size == 3) {
        n := 1;
        OneTick(Inner(pre, o, mid, s, id));
        Slide(mid, t.(id := id), s[1..]);
      } else {
        n := ScanTicks(pre, o, mid + [t], s[1..], id);
        PassTick(pre, o, mid, s, id);
        OneMore(Inner(pre, o, mid, s, id), Inner(pre, o, mid + [t], s[1..], id), n);
        n := n + 1;
        ScanWeight(o, s[1..], id);
        LandingSlides(pre, o, mid, t, s[1..], id, Scan(o, s[1..], id));
        assert [t] + s[1..] == s;
      }
    }
  }

  /** How the outer loop goes on after a scan. */
  lemma Resume(o: Tok, s: seq<Tok>, id: nat, r: ScanResult) returns (o': Tok, s': seq<Tok>, id': nat)
    requires UnmatchedOpen(o) && Sane(o) && AllSane(s) && r == Scan(o, s, id)
    requires Walk([o] + s, id).Some?
    ensures AllSane(s') && Weight(s') < Weight([o] + s)
    ensures Walk([o] + s, id) == ThenWalk(o', Walk(s', id'))
    ensures r.SplitOpen? ==> r.closeSize <= 3
    ensures forall pre :: Landing(pre, o, [], s, id, r) == Outer(pre + [o'], s', id')
  {
    WeightCons(o, s);
    ScanWeight(o, s, id);
    match r
    case NotFound(tail) =>
      o', s', id' := o, tail, id;
      assert [] + tail == tail;
    case Found(tail) =>
      o', s', id' := o.(id := id), tail, id + 1;
      assert [] + tail == tail;
    case SplitOpen(size) =>
      WeightTwo(Fresh(true, o.ch, 3 - size), Fresh(true, o.ch, size), s);
      o', s', id' := Disable(o), SplitOpener(o, size) + s, id;
      assert SplitOpener(o, size) + [] + s == SplitOpener(o, size) + s;
  }

  lemma {:induction false} WalkTicks(pre: seq<Tok>, s: seq<Tok>, id: nat) returns (n: nat)
    requires AllSane(s) && Walk(s, id).Some?
    ensures Ticks(Outer(pre, s, id), n) == Halted(pre + Walk(s, id).value)
    decreases Weight(s)
  {
    var m := Outer(pre, s, id);
    if s == [] {
      n := 1;
      OneTick(m);
      assert pre + [] == pre;
    } else {
      var o := s[0];
      WeightHead(s);
      if !UnmatchedOpen(o) {
        n := WalkTicks(pre + [o], s[1..], id);
        n := n + 1;
        Slide(pre, o, Walk(s[1..], id).value);
      } else {
        ScanWeight(o, s[1..], id);
        var a := ScanTicks(pre, o, [], s[1..], id);
        var r := Scan(o, s[1..], id);
        var o', s', id' := Resume(o, s[1..], id, r);
        assert Landing(pre, o, [], s[1..], id, r) == Outer(pre + [o'], s', id');
        var b := WalkTicks(pre + [o'], s', id');
        TicksAdd(Tick(m), a, b);
        n := 1 + a + b;
        Slide(pre, o', Walk(s', id').value);
      }
    }
  }

  // ---------------------------------------------------------------- where Walk gives up, it never ends

  /** The first unmatched closer ahead has size 3. */
  predicate TripleAhead(s: seq<Tok>) {
    s != [] && if UnmatchedClose(s[0]) then s[0].size == 3 else TripleAhead(s[1..])
  }

  /** An opener of size 0 looks at a closer of size 3: the split gives that closer back. */
  predicate Spinning(m: Machine) {
    m.Inner? && m.o.Marker? && m.o.size == 0 && TripleAhead(m.rest)
  }

  lemma SpinsOn(m: Machine)
    requires MachineOk(m) && Spinning(m)
    ensures Spinning(Tick(m))
  {
    if UnmatchedClose(m.rest[0]) {
      assert (SplitCloser(m.rest[0], 0) + m.rest[1..])[0] == Fresh(false, m.rest[0].ch, 3);
    }
  }

  lemma {:induction false} SpinsForever(m: Machine, n: nat)
    requires MachineOk(m) && Spinning(m)
    ensures Spinning(Ticks(m, n))
    decreases n
  {
    if n > 0 {
      SpinsOn(m);
      SpinsForever(Tick(m), n - 1);
    }
  }

  predicate NoUnmatchedClose(s: seq<Tok>) {
    forall i :: 0 <= i < |s| ==> !UnmatchedClose(s[i])
  }

  lemma {:induction false} TripleBehind(mid: seq<Tok>, s: seq<Tok>)
    requires NoUnmatchedClose(mid) && TripleAhead(s)
    ensures TripleAhead(mid + s)
    decreases |mid|
  {
    if mid == [] {
      assert mid + s == s;
    } else {
      TripleBehind(mid[1..], s);
      assert (mid + s)[1..] == mid[1..] + s;
    }
  }

  /** An opener of size 3 looks at an unmatched closer of size 3 and of the other character. */
  predicate Meets(m: Machine) {
    && m.Inner? && m.o.Marker? && m.o.size == 3
    && m.rest != [] && UnmatchedClose(m.rest[0]) && m.rest[0].size == 3 && m.rest[0].ch != m.o.ch
  }

  /** An opener of size 3 has passed by no unmatched closer. */
  predicate NonePassed(m: Machine) {
    m.Inner? && m.o.Marker? && m.o.size == 3 ==> NoUnmatchedClose(m.mid)
  }

  lemma {:induction false} NonePassedKept(m: Machine, n: nat)
    requires MachineOk(m) && NonePassed(m)
    ensures NonePassed(Ticks(m, n))
    decreases n
  {
    if n > 0 {
      NonePassedKept(Tick(m), n - 1);
    }
  }

  /** A meeting splits the opener into pieces of size 0 and 3, and the first one spins. */
  lemma MeetingSpins(m: Machine)
    requires MachineOk(m) && NonePassed(m) && Meets(m)
    ensures Spinning(Tick(Tick(m)))
  {
    var zero, three := Fresh(true, m.o.ch, 0), Fresh(true, m.o.ch, 3);
    var ahead := SplitOpener(m.o, 3) + m.mid + m.rest;
    assert ahead == [zero] + ([three] + (m.mid + m.rest));
    assert ahead[1..] == [three] + (m.mid + m.rest);
    assert ahead[1..][1..] == m.mid + m.rest;
    TripleBehind(m.mid, m.rest);
  }

  /** The inner loop comes to the meeting that the scan reports. */
  lemma {:induction false} ScanMeets(pre: seq<Tok>, o: Tok, mid: seq<Tok>, s: seq<Tok>, id: nat) returns (n: nat)
    requires UnmatchedOpen(o) && Sane(o) && AllSane(s) && AllSmall(mid) && Scan(o, s, id).Mixed?
    ensures Meets(Ticks(Inner(pre, o, mid, s, id), n))
    decreases |s|
  {
    ScanWeight(o, s, id);
    if UnmatchedClose(s[0]) {
      n := 0;
    } else {
      WeightHead(s);
      n := ScanMeets(pre, o, mid + [s[0]], s[1..], id);
      n := n + 1;
    }
  }

  lemma ResumeNone(o: Tok, s: seq<Tok>, id: nat, next: Machine)
    requires UnmatchedOpen(o) && Sane(o) && AllSane(s)
    requires Walk([o] + s, id).None? && !Scan(o, s, id).Mixed?
    requires var r := Scan(o, s, id);
             (r.SplitOpen? ==> r.closeSize <= 3) && exists pre :: next == Landing(pre, o, [], s, id, r)
    ensures next.Outer? && AllSane(next.rest) && Weight(next.rest) < Weight([o] + s) && Walk(next.rest, next.id).None?
  {
    WeightCons(o, s);
    ScanWeight(o, s, id);
    match Scan(o, s, id)
    case NotFound(tail) => assert [] + tail == tail;
    case Found(tail) => assert [] + tail == tail;
    case SplitOpen(size) =>
      WeightTwo(Fresh(true, o.ch, 3 - size), Fresh(true, o.ch, size), s);
      assert SplitOpener(o, size) + [] + s == SplitOpener(o, size) + s;
  }

  lemma {:induction false} WalkMeets(pre: seq<Tok>, s: seq<Tok>, id: nat) returns (n: nat)
    requires AllSane(s) && Walk(s, id).None?
    ensures Meets(Ticks(Outer(pre, s, id), n))
    decreases Weight(s)
  {
    var m := Outer(pre, s, id);
    var o := s[0];
    WeightHead(s);
    if !UnmatchedOpen(o) {
      n := WalkMeets(pre + [o], s[1..], id);
      n := n + 1;
    } else {
      ScanWeight(o, s[1..], id);
      var r := Scan(o, s[1..], id);
      if r.Mixed? {
        n := ScanMeets(pre, o, [], s[1..], id);
        n := n + 1;
      } else {
        var a := ScanTicks(pre, o, [], s[1..], id);
        var next := Landing(pre, o, [], s[1..], id, r);
        ResumeNone(o, s[1..], id, next);
        var b := WalkMeets(next.pre, next.rest, next.id);
        TicksAdd(Tick(m), a, b);
        n := 1 + a + b;
      }
    }
  }

  // ---------------------------------------------------------------- main result

  /** The first pass over `s` comes to an end. */
  ghost predicate Ends(s: seq<Tok>)
    requires AllSane(s)
  {
    exists n: nat :: Ticks(Outer([], s, 0), n).Halted?
  }

  lemma {:induction false} StaysHalted(list: seq<Tok>, n: nat)
    ensures Ticks(Halted(list), n) == Halted(list)
    decreases n
  {
    if n > 0 { StaysHalted(list, n - 1); }
  }

  lemma HaltsOnce(m: Machine, a: nat, b: nat)
    requires MachineOk(m) && a <= b && Ticks(m, a).Halted?
    ensures Ticks(m, b) == Ticks(m, a)
  {
    TicksAdd(m, a, b - a);
    StaysHalted(Ticks(m, a).list, b - a);
  }

  /** A run that comes to a meeting never ends. */
  lemma MeetingNeverEnds(m: Machine, k: nat, n: nat)
    requires MachineOk(m) && NonePassed(m) && Meets(Ticks(m, k))
    ensures !Ticks(m, n).Halted?
  {
    TicksAdd(m, k, 2);
    NonePassedKept(m, k);
    MeetingSpins(Ticks(m, k));
    OneTick(Ticks(m, k));
    OneTick(Tick(Ticks(m, k)));
    TicksAdd(Ticks(m, k), 1, 1);
    if n <= k + 2 {
      if Ticks(m, n).Halted? { HaltsOnce(m, n, k + 2); }
    } else {
      TicksAdd(m, k + 2, n - (k + 2));
      SpinsForever(Ticks(m, k + 2), n - (k + 2));
    }
  }

  /** What the pass leaves when it ends is what `Walk` computes. */
  lemma EndsWithWalk(s: seq<Tok>)
    requires AllSane(s)
    ensures Ends(s) <==> Walk(s, 0).Some?
    ensures forall n: nat :: Ticks(Outer([], s, 0), n).Halted? ==>
      Walk(s, 0).Some? && Ticks(Outer([], s, 0), n) == Halted(Walk(s, 0).value)
  {
    var m := Outer([], s, 0);
    if Walk(s, 0).Some? {
      var k := WalkTicks([], s, 0);
      assert [] + Walk(s, 0).value == Walk(s, 0).value;
      forall n: nat | Ticks(m, n).Halted? ensures Ticks(m, n) == Ticks(m, k) {
        if n <= k { HaltsOnce(m, n, k); } else { HaltsOnce(m, k, n); }
      }
    } else {
      var k := WalkMeets([], s, 0);
      forall n: nat ensures !Ticks(m, n).Halted? {
        MeetingNeverEnds(m, k, n);
      }
    }
  }

  lemma MeetingPreventsEnd(s: seq<Tok>, k: nat)
    requires AllSane(s) && Meets(Ticks(Outer([], s, 0), k))
    ensures !Ends(s)
  {
    forall n: nat ensures !Ticks(Outer([], s, 0), n).Halted? {
      MeetingNeverEnds(Outer([], s, 0), k, n);
    }
  }

  /** The pass ends if and only if in no step of it an opener of size 3 looks at an unmatched closer
      of size 3 and of the other character. */
  lemma EndsExactly(s: seq<Tok>)
    requires AllSane(s)
    ensures Ends(s) <==> !exists n: nat :: Meets(Ticks(Outer([], s, 0), n))
  {
    EndsWithWalk(s);
    if Walk(s, 0).None? {
      var k := WalkMeets([], s, 0);
      assert exists n: nat :: Meets(Ticks(Outer([], s, 0), n));
    } else {
      forall k: nat ensures !Meets(Ticks(Outer([], s, 0), k)) {
        if Meets(Ticks(Outer([], s, 0), k)) { MeetingPreventsEnd(s, k); }
      }
    }
  }

  predicate NoUnmatchedOpen(s: seq<Tok>) {
    forall i :: 0 <= i < |s| ==> !UnmatchedOpen(s[i])
  }

  lemma {:induction false} ScanMixed(o: Tok, mid: seq<Tok>, c: Tok, post: seq<Tok>, id: nat)
    requires UnmatchedOpen(o) && Sane(o) && o.size == 3
    requires NoUnmatchedClose(mid) && UnmatchedClose(c) && c.size == 3 && c.ch != o.ch
    requires AllSane(mid + ([c] + post))
    ensures Scan(o, mid + ([c] + post), id).Mixed?
    decreases |mid|
  {
    var s := mid + ([c] + post);
    if mid == [] {
      assert s[0] == c;
    } else {
      assert s[0] == mid[0] && s[1..] == mid[1..] + ([c] + post);
      ScanMixed(o, mid[1..], c, post, id);
    }
  }

  lemma {:induction false} WalkMixed(pre: seq<Tok>, o: Tok, s: seq<Tok>, id: nat)
    requires NoUnmatchedOpen(pre) && UnmatchedOpen(o) && AllSane(pre + ([o] + s)) && Sane(o) && AllSane(s)
    requires Scan(o, s, id).Mixed?
    ensures Walk(pre + ([o] + s), id).None?
    decreases |pre|
  {
    var all := pre + ([o] + s);
    if pre == [] {
      assert all[0] == o && all[1..] == s;
    } else {
      assert all[0] == pre[0] && all[1..] == pre[1..] + ([o] + s);
      WalkMixed(pre[1..], o, s, id);
    }
  }

  /** A condition for the other side that can be read off the input list: where the first opener has
      size 3, and the first closer behind it has size 3 too but the other character, the pass runs
      forever. */
  lemma FirstTriplesMixed(pre: seq<Tok>, o: Tok, mid: seq<Tok>, c: Tok, post: seq<Tok>)
    requires AllSane(pre + ([o] + (mid + ([c] + post))))
    requires NoUnmatchedOpen(pre) && UnmatchedOpen(o) && o.size == 3
    requires NoUnmatchedClose(mid) && UnmatchedClose(c) && c.size == 3 && c.ch != o.ch
    ensures !Ends(pre + ([o] + (mid + ([c] + post))))
  {
    var ahead := mid + ([c] + post);
    var s := pre + ([o] + ahead);
    assert s[|pre|] == o && s[|pre| + 1..] == ahead;
    ScanMixed(o, mid, c, post, 0);
    WalkMixed(pre, o, ahead, 0);
    EndsWithWalk(s);
  }

  /** Two markers on which the pass runs forever: "***" opened and "___" closed. */
  lemma MixedTriplesRunForever()
    ensures !Ends([Fresh(true, '*', 3), Fresh(false, '_', 3)])
  {
    var o, c := Fresh(true, '*', 3), Fresh(false, '_', 3);
    assert [] + ([o] + ([] + ([c] + []))) == [o, c];
    FirstTriplesMixed([], o, [], c, []);
  }

  // ---------------------------------------------------------------- a condition on the input list

  /** No opener of size 3 precedes a closer of size 3 and of the other character. */
  predicate NoMixedTriples(s: seq<Tok>) {
    forall i, j :: 0 <= i < j < |s| && UnmatchedOpen(s[i]) && s[i].size == 3 && UnmatchedClose(s[j])
                   && s[j].size == 3 ==>
      s[i].ch == s[j].ch
  }

  predicate OnlyTriplesOf(s: seq<Tok>, ch: char) {
    forall i :: 0 <= i < |s| && UnmatchedClose(s[i]) && s[i].size == 3 ==> s[i].ch == ch
  }

  lemma NoMixedTail(t: Tok, s: seq<Tok>)
    requires NoMixedTriples([t] + s)
    ensures NoMixedTriples(s)
    ensures UnmatchedOpen(t) && t.size == 3 ==> OnlyTriplesOf(s, t.ch)
  {
    var r := [t] + s;
    forall i, j | 0 <= i < j < |s| && UnmatchedOpen(s[i]) && s[i].size == 3 && UnmatchedClose(s[j]) && s[j].size == 3
      ensures s[i].ch == s[j].ch
    {
      assert r[i + 1] == s[i] && r[j + 1] == s[j];
    }
    if UnmatchedOpen(t) && t.size == 3 {
      forall j | 0 <= j < |s| && UnmatchedClose(s[j]) && s[j].size == 3 ensures s[j].ch == t.ch {
        assert r[0] == t && r[j + 1] == s[j];
      }
    }
  }

  lemma NoMixedCons(t: Tok, s: seq<Tok>)
    ensures NoMixedTriples([t] + s) <==>
      NoMixedTriples(s) && (UnmatchedOpen(t) && t.size == 3 ==> OnlyTriplesOf(s, t.ch))
  {
    var r := [t] + s;
    if NoMixedTriples(r) {
      NoMixedTail(t, s);
    }
    if NoMixedTriples(s) && (UnmatchedOpen(t) && t.size == 3 ==> OnlyTriplesOf(s, t.ch)) {
      forall i, j | 0 <= i < j < |r| && UnmatchedOpen(r[i]) && r[i].size == 3 && UnmatchedClose(r[j]) && r[j].size == 3
        ensures r[i].ch == r[j].ch
      {
        assert r[j] == s[j - 1];
        if i > 0 { assert r[i] == s[i - 1]; }
      }
    }
  }

  lemma OnlyTriplesCons(t: Tok, s: seq<Tok>, ch: char)
    requires OnlyTriplesOf(s, ch) && (UnmatchedClose(t) && t.size == 3 ==> t.ch == ch)
    ensures OnlyTriplesOf([t] + s, ch)
  {
  }

  lemma {:induction false} ScanKeepsTriples(o: Tok, s: seq<Tok>, id: nat, ch: char)
    requires UnmatchedOpen(o) && Sane(o) && AllSane(s) && OnlyTriplesOf(s, ch)
    ensures match Scan(o, s, id)
            case NotFound(tail) => OnlyTriplesOf(tail, ch)
            case Found(tail) => OnlyTriplesOf(tail, ch)
            case SplitOpen(_) => true
            case Mixed => o.ch != ch
    decreases Weight(s)
  {
    if s != [] {
      var t := s[0];
      WeightHead(s);
      if UnmatchedClose(t) && t.size == 3 && o.size != 3 {
        WeightTwo(Fresh(false, t.ch, 3 - o.size), Fresh(false, t.ch, o.size), s[1..]);
        var s' := SplitCloser(t, o.size) + s[1..];
        ScanKeepsTriples(o, s', id, ch);
        if Scan(o, s', id).NotFound? || Scan(o, s', id).Found? {
          OnlyTriplesCons(Disable(t), Scan(o, s', id).tail, ch);
        }
      } else if UnmatchedClose(t) && t.ch == o.ch && t.size == o.size {
        OnlyTriplesCons(t.(id := id), s[1..], ch);
      } else if !UnmatchedClose(t) || o.size != 3 {
        ScanKeepsTriples(o, s[1..], id, ch);
        if Scan(o, s[1..], id).NotFound? || Scan(o, s[1..], id).Found? {
          OnlyTriplesCons(t, Scan(o, s[1..], id).tail, ch);
        }
      }
    }
  }

  /** Pieces of size 1 and 2 are no triples. */
  lemma NoMixedPieces(a: Tok, b: Tok, s: seq<Tok>)
    requires NoMixedTriples(s) && a.Marker? && a.size != 3 && b.Marker? && b.size != 3
    ensures NoMixedTriples([a, b] + s)
  {
    NoMixedCons(b, s);
    NoMixedCons(a, [b] + s);
    assert [a, b] + s == [a] + ([b] + s);
  }

  lemma {:induction false} ScanKeepsNoMixed(o: Tok, s: seq<Tok>, id: nat)
    requires UnmatchedOpen(o) && Sane(o) && AllSane(s) && NoMixedTriples(s)
    ensures match Scan(o, s, id)
            case NotFound(tail) => NoMixedTriples(tail)
            case Found(tail) => NoMixedTriples(tail)
            case _ => true
    decreases Weight(s)
  {
    if s != [] {
      var t := s[0];
      WeightHead(s);
      assert s == [t] + s[1..];
      NoMixedCons(t, s[1..]);
      if UnmatchedClose(t) && t.size == 3 && o.size != 3 {
        WeightTwo(Fresh(false, t.ch, 3 - o.size), Fresh(false, t.ch, o.size), s[1..]);
        var s' := SplitCloser(t, o.size) + s[1..];
        NoMixedPieces(Fresh(false, t.ch, 3 - o.size), Fresh(false, t.ch, o.size), s[1..]);
        ScanKeepsNoMixed(o, s', id);
        if Scan(o, s', id).NotFound? || Scan(o, s', id).Found? {
          NoMixedCons(Disable(t), Scan(o, s', id).tail);
        }
      } else if UnmatchedClose(t) && t.ch == o.ch && t.size == o.size {
        NoMixedCons(t.(id := id), s[1..]);
      } else if !UnmatchedClose(t) || o.size != 3 {
        ScanKeepsNoMixed(o, s[1..], id);
        if Scan(o, s[1..], id).NotFound? || Scan(o, s[1..], id).Found? {
          if UnmatchedOpen(t) && t.size == 3 { ScanKeepsTriples(o, s[1..], id, t.ch); }
          NoMixedCons(t, Scan(o, s[1..], id).tail);
        }
      }
    }
  }

  lemma {:induction false} NoMixedWalks(s: seq<Tok>, id: nat)
    requires AllSane(s) && NoMixedTriples(s)
    ensures Walk(s, id).Some?
    decreases Weight(s)
  {
    if s != [] {
      var o := s[0];
      WeightHead(s);
      assert s == [o] + s[1..];
      NoMixedCons(o, s[1..]);
      if !UnmatchedOpen(o) {
        NoMixedWalks(s[1..], id);
      } else {
        ScanWeight(o, s[1..], id);
        ScanKeepsNoMixed(o, s[1..], id);
        if o.size == 3 { ScanKeepsTriples(o, s[1..], id, o.ch); }
        match Scan(o, s[1..], id)
        case NotFound(tail) => NoMixedWalks(tail, id);
        case Found(tail) => NoMixedWalks(tail, id + 1);
        case SplitOpen(size) =>
          WeightTwo(Fresh(true, o.ch, 3 - size), Fresh(true, o.ch, size), s[1..]);
          var s' := SplitOpener(o, size) + s[1..];
          NoMixedPieces(Fresh(true, o.ch, 3 - size), Fresh(true, o.ch, size), s[1..]);
          NoMixedWalks(s', id);
        case Mixed =>
      }
    }
  }

  /** A condition that can be read off the input list: without an opener of size 3 in front of a
      closer of size 3 and of the other character, the pass ends. */
  lemma NoMixedTriplesEnds(s: seq<Tok>)
    requires AllSane(s)
    ensures NoMixedTriples(s) ==> Ends(s)
  {
    EndsWithWalk(s);
    if NoMixedTriples(s) {
      NoMixedWalks(s, 0);
    }
  }
}
