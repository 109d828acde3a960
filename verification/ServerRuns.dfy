/** Runs of the request counters with any number of threads, down to the single updates that a
    thread makes between taking the lock and giving it back. */
module ServerRuns {
  import opened Wrappers
  import opened ServerStatus

  /** Who holds the lock, and how far it has come. `before` is what the counters were. */
  datatype Holder =
    | Nobody
    | Logging(thread: nat, event: Event, updates: nat, before: Counts)
    | Copying(thread: nat)

  /** A copy of the counters, and how many events had been logged when it was taken. */
  datatype Shot = Shot(counts: Counts, logged: nat)

  datatype State = State(shared: Counts, holder: Holder, log: seq<Event>, shots: seq<Shot>)

  datatype Move =
    | StartLog(thread: nat, event: Event)
    | StartSnapshot(thread: nat)
    | CountCode(thread: nat)
    | CountUrl(thread: nat)
    | CountTotal(thread: nat)
    | Copy(thread: nat)
    | Leave(thread: nat)

  function UrlCounted(c: Counts, e: Event): Counts {
    c.(byUrl := Logged(c, e).byUrl)
  }

  function CodeCounted(c: Counts, e: Event): Counts {
    c.(byCode := Logged(c, e).byCode)
  }

  /** One move of one thread; None where the thread has to wait or is elsewhere in its call. */
  function Next(s: State, m: Move): Option<State> {
    match m
    case StartLog(t, e) =>
      if s.holder.Nobody? then Some(s.(holder := Logging(t, e, 0, s.shared), log := s.log + [e])) else None
    case StartSnapshot(t) =>
      if s.holder.Nobody? then Some(s.(holder := Copying(t))) else None
    case CountCode(t) =>
      if s.holder.Logging? && s.holder.thread == t && s.holder.updates == 0
      then Some(s.(shared := CodeCounted(s.shared, s.holder.event), holder := s.holder.(updates := 1))) else None
    case CountUrl(t) =>
      if s.holder.Logging? && s.holder.thread == t && s.holder.updates == 1
      then Some(s.(shared := UrlCounted(s.shared, s.holder.event), holder := s.holder.(updates := 2))) else None
    case CountTotal(t) =>
      if s.holder.Logging? && s.holder.thread == t && s.holder.updates == 2
      then Some(s.(shared := s.shared.(total := s.shared.total + 1), holder := s.holder.(updates := 3))) else None
    case Copy(t) =>
      if s.holder.Copying? && s.holder.thread == t
      then Some(s.(shots := s.shots + [Shot(s.shared, |s.log|)], holder := Nobody)) else None
    case Leave(t) =>
      if s.holder.Logging? && s.holder.thread == t && s.holder.updates == 3
      then Some(s.(holder := Nobody)) else None
  }

  const START: State := State(NOTHING, Nobody, [], [])

  function Run(moves: seq<Move>): Option<State> {
    if moves == [] then Some(START)
    else
      match Run(moves[..|moves| - 1])
      case None => None
      case Some(s) => Next(s, moves[|moves| - 1])
  }

  /** The counters agree with the log and with each other. */
  ghost predicate Agrees(c: Counts, log: seq<Event>) {
    Counted(c, log) && c.total == Sum(c.byCode) == Sums(c.byUrl)
  }

  function Partly(before: Counts, e: Event, updates: nat): Counts {
    if updates == 0 then before
    else if updates == 1 then CodeCounted(before, e)
    else if updates == 2 then UrlCounted(CodeCounted(before, e), e)
    else Logged(before, e)
  }

  ghost predicate ShotAgrees(shot: Shot, log: seq<Event>) {
    shot.logged <= |log| && Agrees(shot.counts, log[..shot.logged])
  }

  ghost predicate ShotsAgree(shots: seq<Shot>, log: seq<Event>) {
    forall i :: 0 <= i < |shots| ==> ShotAgrees(shots[i], log)
  }

  ghost predicate Inv(s: State) {
    && (match s.holder
        case Logging(_, e, k, before) =>
          s.log != [] && s.log[|s.log| - 1] == e && k <= 3
          && Agrees(before, s.log[..|s.log| - 1]) && s.shared == Partly(before, e, k)
        case _ => Agrees(s.shared, s.log))
    && ShotsAgree(s.shots, s.log)
  }

  lemma LoggedAgrees(c: Counts, log: seq<Event>, e: Event)
    requires Agrees(c, log)
    ensures Agrees(Logged(c, e), log + [e])
  {
    LoggedCodes(c, log, e);
    LoggedUrls(c, log, e);
    LoggedSums(c, e);
  }

  lemma ShotsStillAgree(shots: seq<Shot>, log: seq<Event>, e: Event)
    requires ShotsAgree(shots, log)
    ensures ShotsAgree(shots, log + [e])
  {
    forall i | 0 <= i < |shots| ensures ShotAgrees(shots[i], log + [e]) {
      assert ShotAgrees(shots[i], log);
      assert (log + [e])[..shots[i].logged] == log[..shots[i].logged];
    }
  }

  /** A call that has made all its updates has logged its event. */
  lemma LeaveKeepsInv(s: State)
    requires Inv(s) && s.holder.Logging? && s.holder.updates == 3
    ensures Agrees(s.shared, s.log)
  {
    var n := |s.log| - 1;
    LoggedAgrees(s.holder.before, s.log[..n], s.holder.event);
    assert s.log == s.log[..n] + [s.holder.event];
  }

  lemma StartKeepsInv(s: State, t: nat, e: Event)
    requires Inv(s) && s.holder.Nobody?
    ensures Inv(s.(holder := Logging(t, e, 0, s.shared), log := s.log + [e]))
  {
    assert (s.log + [e])[..|s.log|] == s.log;
    ShotsStillAgree(s.shots, s.log, e);
  }

  lemma CopyKeepsInv(s: State)
    requires Inv(s) && s.holder.Copying?
    ensures Inv(s.(shots := s.shots + [Shot(s.shared, |s.log|)], holder := Nobody))
  {
    assert s.log[..|s.log|] == s.log;
    assert ShotAgrees(Shot(s.shared, |s.log|), s.log);
  }

  lemma NextKeepsInv(s: State, m: Move)
    requires Inv(s) && Next(s, m).Some?
    ensures Inv(Next(s, m).value)
  {
    match m {
      case StartLog(t, e) => StartKeepsInv(s, t, e);
      case Leave(t) => LeaveKeepsInv(s);
      case Copy(t) => CopyKeepsInv(s);
      case _ =>
    }
  }

  /** However the threads' moves interleave, every snapshot agrees with the events logged before
      it and with itself, and so do the counters whenever nobody is in the middle of logging. */
  lemma {:induction false} EveryRunAgrees(moves: seq<Move>)
    ensures Run(moves).Some? ==> Inv(Run(moves).value)
    decreases |moves|
  {
    if moves == [] {
      assert Agrees(NOTHING, []);
    } else {
      var before := moves[..|moves| - 1];
      EveryRunAgrees(before);
      if Run(moves).Some? {
        NextKeepsInv(Run(before).value, moves[|moves| - 1]);
      }
    }
  }

  /** Two runs that have logged the same events, in whatever order and by whichever threads, have
      come to the same counters. */
  lemma RunsConverge(a: seq<Move>, b: seq<Move>)
    requires Run(a).Some? && Run(b).Some?
    requires Run(a).value.holder.Nobody? && Run(b).value.holder.Nobody?
    requires multiset(Run(a).value.log) == multiset(Run(b).value.log)
    ensures Run(a).value.shared == Run(b).value.shared
  {
    EveryRunAgrees(a);
    EveryRunAgrees(b);
    SameCounts(Run(a).value.shared, Run(b).value.shared, Run(a).value.log, Run(b).value.log);
  }

  /** The lock is needed: halfway through a call the counters never agree. */
  lemma HalfwayDisagrees(s: State)
    requires Inv(s) && s.holder.Logging? && 1 <= s.holder.updates <= 2
    ensures s.shared.total != Sum(s.shared.byCode)
  {
    LoggedSums(s.holder.before, s.holder.event);
  }
}
