/** Server.run and Server.close as interleaved calls: a lock, an event and a thread slot that must
    keep the native destroy from overlapping the native run. */
module Lifecycle {
  import opened Prelude

  /** Where a call stands. Everything a call does under the lifecycle lock without waiting is one
      step; the three conditions that close reads are separate steps, because the end of a run
      writes what they read without taking the lock. */
  datatype Pc =
    | RunCalled   // about to take the lock
    | Announced   // event cleared, thread slot set, lock released
    | InRun       // inside the native run
    | RunReturned // native run is over
    | Cleared     // thread slot empty, event not set yet
    | CloseCalled // about to take the lock
    | Checking    // holds the lock, server open
    | SawRunning  // the event was not set
    | SawThread   // the thread slot was not empty
    | Waiting     // shutdown requested
    | Destroying  // decided
    | InDestroy   // inside the native destroy
    | Destroyed   // native destroy is over

  datatype Act = Act(thread: int, pc: Pc)

  datatype State = State(lock: Option<int>, closed: bool, exited: bool, runThread: Option<int>,
                         acts: map<int, Act>, destroys: nat)

  const INIT: State := State(None, false, true, None, map[], 0)

  datatype Event =
    | CallRun(a: int, thread: int)
    | CallClose(a: int, thread: int)
    | Go(a: int)
    | PumpFails(a: int)
    | GivesUp(a: int) // the shutdown request fails or the wait times out

  // -------------------------------------------------------------------------------------
  // Steps
  // -------------------------------------------------------------------------------------

  function At(s: State, a: int, pc: Pc): State
    requires a in s.acts
  {
    s.(acts := s.acts[a := Act(s.acts[a].thread, pc)])
  }

  function Leave(s: State, a: int): State { s.(acts := s.acts - {a}) }

  function GoRun(s: State, a: int): Option<State>
    requires a in s.acts
  {
    match s.acts[a].pc
    case RunCalled =>
      if s.lock.Some? then None
      else if s.closed then Some(Leave(s, a))
      else Some(At(s, a, Announced).(exited := false, runThread := Some(s.acts[a].thread)))
    case Announced => Some(At(s, a, InRun))
    case InRun => Some(At(s, a, RunReturned))
    case RunReturned => Some(At(s, a, Cleared).(runThread := None))
    case Cleared => Some(Leave(s, a).(exited := true))
    case _ => None
  }

  function GoClose(s: State, a: int): Option<State>
    requires a in s.acts
  {
    match s.acts[a].pc
    case CloseCalled =>
      if s.lock.Some? then None
      else if s.closed then Some(Leave(s, a))
      else Some(At(s, a, Checking).(lock := Some(a)))
    case Checking => Some(At(s, a, if s.exited then Destroying else SawRunning))
    case SawRunning => Some(At(s, a, if s.runThread == None then Destroying else SawThread))
    case SawThread => Some(At(s, a, if s.runThread == Some(s.acts[a].thread) then Destroying else Waiting))
    case Waiting => if s.exited then Some(At(s, a, Destroying)) else None
    case Destroying => Some(At(s, a, InDestroy).(destroys := s.destroys + 1))
    case InDestroy => Some(At(s, a, Destroyed))
    case Destroyed => Some(Leave(s, a).(closed := true, lock := None))
    case _ => None
  }

  predicate RunPc(pc: Pc) { pc.RunCalled? || pc.Announced? || pc.InRun? || pc.RunReturned? || pc.Cleared? }

  /** The steps of the machine; None when the event is not possible. */
  function Step(s: State, e: Event): Option<State> {
    match e
    case CallRun(a, th) => if a in s.acts then None else Some(s.(acts := s.acts[a := Act(th, RunCalled)]))
    case CallClose(a, th) => if a in s.acts then None else Some(s.(acts := s.acts[a := Act(th, CloseCalled)]))
    case Go(a) => if a !in s.acts then None else if RunPc(s.acts[a].pc) then GoRun(s, a) else GoClose(s, a)
    case PumpFails(a) => if a in s.acts && s.acts[a].pc == Announced then Some(Leave(s, a)) else None
    case GivesUp(a) =>
      if a in s.acts && s.acts[a].pc == Waiting then Some(Leave(s, a).(lock := None)) else None
  }

  function Run(s: State, es: seq<Event>): Option<State>
    decreases |es|
  {
    if es == [] then Some(s)
    else
      var r := Step(s, es[0]);
      if r.Some? then Run(r.value, es[1..]) else None
  }

  // -------------------------------------------------------------------------------------
  // The discipline and the invariant
  // -------------------------------------------------------------------------------------

  /** What the documentation asks of callers: a thread makes one call at a time, and at most one
      run is in flight. */
  ghost predicate Allowed(s: State, e: Event) {
    match e
    case CallRun(_, th) => forall b :: b in s.acts ==> s.acts[b].thread != th && !RunPc(s.acts[b].pc)
    case CallClose(_, th) => forall b :: b in s.acts ==> s.acts[b].thread != th
    case _ => true
  }

  ghost predicate Disciplined(s: State, es: seq<Event>)
    decreases |es|
  {
    es == [] || (Allowed(s, es[0]) && (Step(s, es[0]).Some? ==> Disciplined(Step(s, es[0]).value, es[1..])))
  }

  /** Holds the lifecycle lock. */
  predicate Holds(pc: Pc) {
    pc.Checking? || pc.SawRunning? || pc.SawThread? || pc.Waiting? || pc.Destroying? || pc.InDestroy? || pc.Destroyed?
  }

  /** Announced and not yet back from the native run. */
  predicate Live(pc: Pc) { pc.Announced? || pc.InRun? || pc.RunReturned? }

  predicate Doomed(pc: Pc) { pc.Destroying? || pc.InDestroy? || pc.Destroyed? }

  predicate Spent(pc: Pc) { pc.InDestroy? || pc.Destroyed? }

  ghost predicate Separate(s: State) {
    forall a, b :: a in s.acts && b in s.acts && a != b ==>
      s.acts[a].thread != s.acts[b].thread && !(RunPc(s.acts[a].pc) && RunPc(s.acts[b].pc))
  }

  ghost predicate Locked(s: State) {
    && (forall a :: a in s.acts && Holds(s.acts[a].pc) ==> s.lock == Some(a))
    && (s.lock.Some? ==> s.lock.value in s.acts && Holds(s.acts[s.lock.value].pc) && !s.closed)
  }

  ghost predicate Announcements(s: State) {
    && (forall a :: a in s.acts && Live(s.acts[a].pc) ==>
          !s.exited && s.runThread == Some(s.acts[a].thread) && !s.closed && s.destroys == 0)
    && (forall a :: a in s.acts && s.acts[a].pc == Cleared ==> !s.exited && s.runThread == None)
  }

  ghost predicate Exclusive(s: State) {
    forall a, b :: a in s.acts && b in s.acts && Doomed(s.acts[a].pc) ==> !Live(s.acts[b].pc)
  }

  ghost predicate Counted(s: State) {
    && s.destroys <= 1
    && (s.closed ==> s.destroys == 1)
    && (forall a :: a in s.acts && Spent(s.acts[a].pc) ==> s.destroys == 1)
    && (s.destroys == 1 && !s.closed ==> s.lock.Some? && s.lock.value in s.acts && Spent(s.acts[s.lock.value].pc))
  }

  ghost predicate InFlight(s: State) {
    exists a :: a in s.acts && (Live(s.acts[a].pc) || s.acts[a].pc == Cleared)
  }

  /** The event ends an announced run: its way out, or the failure to register its signal pump. */
  predicate Ends(s: State, e: Event) {
    e.PumpFails? || (e.Go? && e.a in s.acts && s.acts[e.a].pc == Cleared)
  }

  /** The last event of a run's history that ended an announced run. */
  function LastEnding(s: State, es: seq<Event>, last: Option<Event>): Option<Event>
    requires Run(s, es).Some?
    decreases |es|
  {
    if es == [] then last
    else LastEnding(Step(s, es[0]).value, es[1..], if Ends(s, es[0]) then Some(es[0]) else last)
  }

  predicate Failed(last: Option<Event>) { last.Some? && last.value.PumpFails? }

  /** Between runs the event is set exactly when the last run did not fail. */
  ghost predicate Settled(s: State, last: Option<Event>) { !InFlight(s) ==> (s.exited <==> !Failed(last)) }

  ghost predicate Inv(s: State) {
    Separate(s) && Locked(s) && Announcements(s) && Exclusive(s) && Counted(s)
  }

  lemma CallKeeps(s: State, e: Event)
    requires Inv(s) && (e.CallRun? || e.CallClose?) && Allowed(s, e) && Step(s, e).Some?
    ensures Inv(Step(s, e).value)
  {
    var s' := Step(s, e).value;
    assert s'.acts == s.acts[e.a := s'.acts[e.a]] && (s'.acts[e.a].pc == RunCalled || s'.acts[e.a].pc == CloseCalled);
    Calls(s, s', e);
  }

  lemma Calls(s: State, s': State, e: Event)
    requires Inv(s) && (e.CallRun? || e.CallClose?) && Allowed(s, e) && e.a !in s.acts
    requires s' == s.(acts := s.acts[e.a := Act(e.thread, if e.CallRun? then RunCalled else CloseCalled)])
    ensures Inv(s')
  {
    assert Separate(s') by { hide Locked, Announcements, Exclusive, Counted; }
    hide Separate, Allowed;
  }

  /** What one call's step does to the others: nothing. */
  ghost predicate Moves(s: State, s': State, a: int) { OnlyMoves(s.acts, s'.acts, a) }

  ghost predicate OnlyMoves(m: map<int, Act>, m': map<int, Act>, a: int) {
    && (forall b :: b != a ==> (b in m' <==> b in m) && (b in m ==> m'[b] == m[b]))
    && a in m && (a in m' ==> m'[a].thread == m[a].thread)
  }

  lemma MoveOrLeave(m: map<int, Act>, a: int, pc: Pc)
    requires a in m
    ensures OnlyMoves(m, m[a := Act(m[a].thread, pc)], a) && OnlyMoves(m, m - {a}, a)
  {
  }

  lemma MovesSeparate(s: State, s': State, a: int)
    requires Separate(s) && Moves(s, s', a) && (a in s'.acts ==> (RunPc(s'.acts[a].pc) ==> RunPc(s.acts[a].pc)))
    ensures Separate(s')
  {
    hide RunPc;
  }

  lemma OneRun(s: State, a: int)
    requires Separate(s) && a in s.acts && RunPc(s.acts[a].pc)
    ensures forall b :: b in s.acts && b != a ==> !RunPc(s.acts[b].pc)
  {
  }

  lemma RunLocked(s: State, a: int)
    requires Locked(s) && a in s.acts && RunPc(s.acts[a].pc) && GoRun(s, a).Some?
    ensures Locked(GoRun(s, a).value)
  {
  }

  lemma RunAnnounces(s: State, a: int)
    requires Inv(s) && a in s.acts && RunPc(s.acts[a].pc) && GoRun(s, a).Some?
    ensures Announcements(GoRun(s, a).value)
  {
    OneRun(s, a);
    hide Separate, Exclusive;
  }

  lemma RunExcludes(s: State, a: int)
    requires Locked(s) && Exclusive(s) && a in s.acts && RunPc(s.acts[a].pc) && GoRun(s, a).Some?
    ensures Exclusive(GoRun(s, a).value)
  {
  }

  lemma RunCounts(s: State, a: int)
    requires Locked(s) && Counted(s) && a in s.acts && RunPc(s.acts[a].pc) && GoRun(s, a).Some?
    ensures Counted(GoRun(s, a).value)
  {
  }

  lemma GoRunKeeps(s: State, a: int)
    requires Inv(s) && a in s.acts && RunPc(s.acts[a].pc) && GoRun(s, a).Some?
    ensures Inv(GoRun(s, a).value)
  {
    hide Separate, Locked, Announcements, Exclusive, Counted;
    MovesSeparate(s, GoRun(s, a).value, a);
    RunLocked(s, a);
    RunAnnounces(s, a);
    RunExcludes(s, a);
    RunCounts(s, a);
  }

  lemma CloseLocked(s: State, a: int)
    requires Locked(s) && a in s.acts && !RunPc(s.acts[a].pc) && GoClose(s, a).Some?
    ensures Locked(GoClose(s, a).value)
  {
  }

  lemma CloseMoves(s: State, a: int)
    requires a in s.acts && !RunPc(s.acts[a].pc) && GoClose(s, a).Some?
    ensures Moves(s, GoClose(s, a).value, a)
  {
    hide OnlyMoves;
    var s' := GoClose(s, a).value;
    MoveOrLeave(s.acts, a, if a in s'.acts then s'.acts[a].pc else s.acts[a].pc);
  }

  /** What a step of a close cannot touch. */
  lemma CloseFrame(s: State, a: int)
    requires a in s.acts && !RunPc(s.acts[a].pc) && GoClose(s, a).Some?
    ensures var s' := GoClose(s, a).value;
            && Moves(s, s', a)
            && (a in s'.acts ==> !RunPc(s'.acts[a].pc) && !Live(s'.acts[a].pc) && s'.acts[a].pc != Cleared)
            && s'.exited == s.exited && s'.runThread == s.runThread
            && (s'.closed == s.closed || Doomed(s.acts[a].pc))
            && (s'.destroys == s.destroys || Doomed(s.acts[a].pc))
  {
    hide Moves;
    CloseMoves(s, a);
  }

  lemma CloseAnnounces(s: State, a: int)
    requires Announcements(s) && Exclusive(s) && a in s.acts && !RunPc(s.acts[a].pc) && GoClose(s, a).Some?
    ensures Announcements(GoClose(s, a).value)
  {
    hide GoClose, Live, Doomed;
    CloseFrame(s, a);
  }

  /** The decision to destroy is only taken when no announced run is still to return. */
  lemma NoneLive(s: State, a: int)
    requires Separate(s) && Announcements(s) && Exclusive(s)
    requires a in s.acts && !RunPc(s.acts[a].pc) && GoClose(s, a).Some?
    requires a in GoClose(s, a).value.acts && Doomed(GoClose(s, a).value.acts[a].pc)
    ensures forall b :: b in s.acts ==> !Live(s.acts[b].pc)
  {
  }

  lemma CloseExcludes(s: State, a: int)
    requires Inv(s) && a in s.acts && !RunPc(s.acts[a].pc) && GoClose(s, a).Some?
    ensures Exclusive(GoClose(s, a).value)
  {
    hide Separate, Announcements, Counted, Locked, GoClose, Live, Doomed, RunPc;
    var s' := GoClose(s, a).value;
    CloseFrame(s, a);
    if a in s'.acts && Doomed(s'.acts[a].pc) { NoneLive(s, a); }
  }

  lemma CloseCounts(s: State, a: int)
    requires Locked(s) && Counted(s) && a in s.acts && !RunPc(s.acts[a].pc) && GoClose(s, a).Some?
    ensures Counted(GoClose(s, a).value)
  {
  }

  lemma GoCloseKeeps(s: State, a: int)
    requires Inv(s) && a in s.acts && !RunPc(s.acts[a].pc) && GoClose(s, a).Some?
    ensures Inv(GoClose(s, a).value)
  {
    hide Separate, Locked, Announcements, Exclusive, Counted, GoClose, RunPc;
    CloseFrame(s, a);
    MovesSeparate(s, GoClose(s, a).value, a);
    CloseLocked(s, a);
    CloseAnnounces(s, a);
    CloseExcludes(s, a);
    CloseCounts(s, a);
  }

  lemma StepKeeps(s: State, e: Event)
    requires Inv(s) && Allowed(s, e) && Step(s, e).Some?
    ensures Inv(Step(s, e).value)
  {
    match e
    case CallRun(_, _) => CallKeeps(s, e);
    case CallClose(_, _) => CallKeeps(s, e);
    case Go(a) => if RunPc(s.acts[a].pc) { GoRunKeeps(s, a); } else { GoCloseKeeps(s, a); }
    case PumpFails(a) =>
    case GivesUp(a) =>
  }

  lemma {:induction false} RunKeeps(s: State, es: seq<Event>)
    requires Inv(s) && Disciplined(s, es) && Run(s, es).Some?
    ensures Inv(Run(s, es).value)
    decreases |es|
  {
    hide Inv, Step, Allowed;
    if es != [] {
      StepKeeps(s, es[0]);
      RunKeeps(Step(s, es[0]).value, es[1..]);
    }
  }

  // -------------------------------------------------------------------------------------
  // Safety
  // -------------------------------------------------------------------------------------

  /** Lifecycle safety, in every state a disciplined run reaches: while the native destroy is active
      no call is inside the native run or holds an announcement that leads there, nor is one still
      using the handle after it; the handle is destroyed at most once; and once it is destroyed no
      run is ever live again. */
  lemma Safety(es: seq<Event>)
    requires Disciplined(INIT, es) && Run(INIT, es).Some?
    ensures var s := Run(INIT, es).value;
            && (forall a, b :: a in s.acts && b in s.acts && s.acts[a].pc == InDestroy ==> !Live(s.acts[b].pc))
            && s.destroys <= 1
            && (s.destroys == 1 ==> forall b :: b in s.acts ==> !Live(s.acts[b].pc))
            && (s.closed ==> s.destroys == 1)
  {
    hide Run, Disciplined;
    RunKeeps(INIT, es);
  }

  lemma SettledKeeps(s: State, e: Event, last: Option<Event>)
    requires Inv(s) && Settled(s, last) && Allowed(s, e) && Step(s, e).Some?
    ensures Settled(Step(s, e).value, if Ends(s, e) then Some(e) else last)
  {
    var s' := Step(s, e).value;
    match e
    case CallRun(a, _) => SameFlight(s, s', a);
    case CallClose(a, _) => SameFlight(s, s', a);
    case PumpFails(a) => RunFlight(s, s', a);
    case GivesUp(a) => SameFlight(s, s', a);
    case Go(a) =>
      if !RunPc(s.acts[a].pc) {
        hide GoClose;
        CloseFrame(s, a);
        SameFlight(s, s', a);
      } else {
        RunFlight(s, s', a);
      }
  }

  /** A step of a call that is not a run changes nothing about the run in flight. */
  lemma SameFlight(s: State, s': State, a: int)
    requires forall b :: b != a ==> (b in s'.acts <==> b in s.acts) && (b in s.acts ==> s'.acts[b] == s.acts[b])
    requires a in s.acts ==> !Live(s.acts[a].pc) && s.acts[a].pc != Cleared
    requires a in s'.acts ==> !Live(s'.acts[a].pc) && s'.acts[a].pc != Cleared
    ensures InFlight(s') <==> InFlight(s)
  {
    hide Live;
    if InFlight(s) {
      var b :| b in s.acts && (Live(s.acts[b].pc) || s.acts[b].pc == Cleared);
      assert b in s'.acts && s'.acts[b] == s.acts[b];
    }
    if InFlight(s') {
      var b :| b in s'.acts && (Live(s'.acts[b].pc) || s'.acts[b].pc == Cleared);
      assert b in s.acts && s'.acts[b] == s.acts[b];
    }
  }

  lemma RunFlight(s: State, s': State, a: int)
    requires Separate(s) && a in s.acts && RunPc(s.acts[a].pc) && Moves(s, s', a)
    ensures InFlight(s) <==> Live(s.acts[a].pc) || s.acts[a].pc == Cleared
    ensures InFlight(s') <==> a in s'.acts && (Live(s'.acts[a].pc) || s'.acts[a].pc == Cleared)
  {
    OneRun(s, a);
    hide Separate;
    if InFlight(s) {
      var b :| b in s.acts && (Live(s.acts[b].pc) || s.acts[b].pc == Cleared);
      assert RunPc(s.acts[b].pc);
    }
  }

  lemma {:induction false} RunSettles(s: State, es: seq<Event>, last: Option<Event>)
    requires Inv(s) && Settled(s, last) && Disciplined(s, es) && Run(s, es).Some?
    ensures Settled(Run(s, es).value, LastEnding(s, es, last))
    decreases |es|
  {
    hide Inv, Settled, Step, Allowed, Ends;
    if es != [] {
      StepKeeps(s, es[0]);
      SettledKeeps(s, es[0], last);
      RunSettles(Step(s, es[0]).value, es[1..], if Ends(s, es[0]) then Some(es[0]) else last);
    }
  }

  /** When no run is in flight the event is set, so that a close does not wait, exactly when the last
      run to end, if any, did not end in the failure to register its signal pump. */
  lemma EventSetExactly(es: seq<Event>)
    requires Disciplined(INIT, es) && Run(INIT, es).Some? && !InFlight(Run(INIT, es).value)
    ensures Run(INIT, es).value.exited <==> !Failed(LastEnding(INIT, es, None))
  {
    hide Run, Disciplined, LastEnding;
    RunSettles(INIT, es, None);
  }

  /** A close never waits for nothing: one that still has to wait has a run in flight whose next step
      nothing can block, the lock it holds included, unless no run is in flight and the last one to end
      failed while registering its pump. */
  lemma WaitingHasRunner(es: seq<Event>, a: int)
    requires Disciplined(INIT, es) && Run(INIT, es).Some?
    requires var s := Run(INIT, es).value; a in s.acts && s.acts[a].pc == Waiting && !s.exited
    ensures var s := Run(INIT, es).value;
            || (exists r :: r in s.acts && (Live(s.acts[r].pc) || s.acts[r].pc == Cleared) && Step(s, Go(r)).Some?)
            || (!InFlight(s) && Failed(LastEnding(INIT, es, None)))
  {
    hide Run, Disciplined, LastEnding;
    RunSettles(INIT, es, None);
    var s := Run(INIT, es).value;
    if InFlight(s) {
      var r :| r in s.acts && (Live(s.acts[r].pc) || s.acts[r].pc == Cleared);
      assert Step(s, Go(r)).Some?;
    }
  }

  // -------------------------------------------------------------------------------------
  // The failed pump registration
  // -------------------------------------------------------------------------------------

  /** The announcement of `thread` is still up, its run is gone, and it makes no more calls. */
  ghost predicate Stuck(s: State, thread: int) {
    && !s.exited && s.runThread == Some(thread) && !s.closed && s.destroys == 0
    && forall a :: a in s.acts ==> s.acts[a].thread != thread && !RunPc(s.acts[a].pc) && !Doomed(s.acts[a].pc)
  }

  /** Every failed registration leaves such a state. */
  lemma PumpFailureStrands(s: State, a: int)
    requires Inv(s) && Step(s, PumpFails(a)).Some?
    ensures Stuck(Step(s, PumpFails(a)).value, s.acts[a].thread)
  {
    OneRun(s, a);
  }

  lemma StuckStays(s: State, thread: int, e: Event)
    requires Stuck(s, thread) && Step(s, e).Some?
    requires !e.CallRun? && (e.CallClose? ==> e.thread != thread)
    ensures Stuck(Step(s, e).value, thread)
  {
  }

  /** A run that fails while registering its pump leaves the server unclosable by others: whatever
      closes other threads attempt afterwards, in whatever interleaving, none ever destroys the
      handle, although no run is in flight. */
  lemma {:induction false} StrandedNeverCloses(s: State, thread: int, es: seq<Event>)
    requires Stuck(s, thread) && Run(s, es).Some?
    requires forall e :: e in es ==> !e.CallRun? && (e.CallClose? ==> e.thread != thread)
    ensures Run(s, es).value.destroys == 0 && !Run(s, es).value.closed
    decreases |es|
  {
    hide Step;
    if es != [] {
      assert es[0] in es;
      StuckStays(s, thread, es[0]);
      StrandedNeverCloses(Step(s, es[0]).value, thread, es[1..]);
    }
  }

  // -------------------------------------------------------------------------------------
  // A close closes
  // -------------------------------------------------------------------------------------

  lemma RunOne(s: State, e: Event, rest: seq<Event>)
    requires Step(s, e).Some?
    ensures Run(s, [e] + rest) == Run(Step(s, e).value, rest)
  {
    assert ([e] + rest)[1..] == rest;
  }

  /** `a` taking `n` steps. */
  function Steps(a: int, n: nat): seq<Event> { if n == 0 then [] else [Go(a)] + Steps(a, n - 1) }

  lemma StepsOne(s: State, a: int, n: nat, s': State)
    requires n > 0 && Step(s, Go(a)) == Some(s')
    ensures Run(s, Steps(a, n)) == Run(s', Steps(a, n - 1))
  {
    hide Step;
    RunOne(s, Go(a), Steps(a, n - 1));
  }

  lemma StepsNone(s: State, a: int)
    ensures Run(s, Steps(a, 0)) == Some(s)
  {
  }

  /** When a step takes a close out of the machine the server is closed and its handle was destroyed, once:
      only giving up lets a close leave an open server. */
  lemma CloseCloses(es: seq<Event>, a: int)
    requires Disciplined(INIT, es) && Run(INIT, es).Some?
    requires var s := Run(INIT, es).value;
             a in s.acts && !RunPc(s.acts[a].pc) && Step(s, Go(a)).Some? && a !in Step(s, Go(a)).value.acts
    ensures var s' := Step(Run(INIT, es).value, Go(a)).value;
            s'.closed && s'.destroys == 1 && s'.lock != Some(a)
  {
    hide Run, Disciplined;
    RunKeeps(INIT, es);
  }

  /** What a close decides, left alone: it goes on to destroy when the event is set, when the thread slot is
      empty or when the run is its own thread's, and otherwise it waits. */
  lemma CheckDecides(s: State, a: int)
    requires a in s.acts && s.acts[a].pc == Checking
    ensures var n := if s.exited then 1 else if s.runThread == None then 2 else 3;
            var pc := if !s.exited && s.runThread.Some? && s.runThread != Some(s.acts[a].thread) then Waiting
                      else Destroying;
            Run(s, Steps(a, n)) == Some(At(s, a, pc))
  {
    hide Run;
    var th := s.acts[a].thread;
    if s.exited {
      StepsOne(s, a, 1, At(s, a, Destroying));
      StepsNone(At(s, a, Destroying), a);
    } else {
      var s1 := At(s, a, SawRunning);
      if s.runThread == None {
        StepsOne(s, a, 2, s1);
        StepsOne(s1, a, 1, At(s1, a, Destroying));
        StepsNone(At(s1, a, Destroying), a);
        AtAgain(s, a, SawRunning, Destroying);
      } else {
        var s2 := At(s1, a, SawThread);
        var pc := if s.runThread == Some(th) then Destroying else Waiting;
        StepsOne(s, a, 3, s1);
        StepsOne(s1, a, 2, s2);
        StepsOne(s2, a, 1, At(s2, a, pc));
        StepsNone(At(s2, a, pc), a);
        AtAgain(s, a, SawRunning, SawThread);
        AtAgain(s, a, SawThread, pc);
      }
    }
  }

  lemma AtAgain(s: State, a: int, pc: Pc, pc': Pc)
    requires a in s.acts
    ensures At(At(s, a, pc), a, pc') == At(s, a, pc')
  {
    assert s.acts[a := Act(s.acts[a].thread, pc)][a := Act(s.acts[a].thread, pc')]
        == s.acts[a := Act(s.acts[a].thread, pc')];
  }

  /** A close that has decided, or waits with the event set, destroys and closes by its next steps. */
  lemma DecidedCloses(s: State, a: int)
    requires a in s.acts && (s.acts[a].pc == Destroying || (s.acts[a].pc == Waiting && s.exited))
    ensures Run(s, Steps(a, if s.acts[a].pc == Waiting then 4 else 3))
            == Some(Leave(s, a).(closed := true, lock := None, destroys := s.destroys + 1))
  {
    hide Run;
    var s0 := At(s, a, Destroying);
    if s.acts[a].pc == Waiting {
      StepsOne(s, a, 4, s0);
    } else {
      assert s.acts[a := Act(s.acts[a].thread, Destroying)] == s.acts;
    }
    var s1 := At(s0, a, InDestroy).(destroys := s.destroys + 1);
    var s2 := At(s1, a, Destroyed);
    var s3 := Leave(s2, a).(closed := true, lock := None);
    StepsOne(s0, a, 3, s1);
    StepsOne(s1, a, 2, s2);
    StepsOne(s2, a, 1, s3);
    StepsNone(s3, a);
    assert s2.acts - {a} == s.acts - {a};
  }

  /** How many steps an announced run is from its end. */
  function Left(pc: Pc): nat {
    match pc
    case Announced => 4
    case InRun => 3
    case RunReturned => 2
    case Cleared => 1
    case _ => 0
  }

  /** An announced run that goes on comes to its end and sets the event. */
  lemma {:induction false} RunFinishes(s: State, r: int)
    requires r in s.acts && (Live(s.acts[r].pc) || s.acts[r].pc == Cleared)
    ensures var end := Run(s, Steps(r, Left(s.acts[r].pc)));
            && end.Some? && end.value.exited && end.value.acts == s.acts - {r}
            && end.value.destroys == s.destroys && end.value.closed == s.closed && end.value.lock == s.lock
    decreases Left(s.acts[r].pc)
  {
    hide Run;
    var s' := GoRun(s, r).value;
    StepsOne(s, r, Left(s.acts[r].pc), s');
    if s.acts[r].pc == Cleared {
      StepsNone(s', r);
    } else {
      RunFinishes(s', r);
      assert s'.acts - {r} == s.acts - {r};
    }
  }

  lemma {:induction false} RunThen(s: State, es: seq<Event>, more: seq<Event>)
    requires Run(s, es).Some?
    ensures Run(s, es + more) == Run(Run(s, es).value, more)
    decreases |es|
  {
    hide Step;
    if es == [] {
      assert es + more == more;
    } else {
      assert (es + more)[1..] == es[1..] + more;
      RunThen(Step(s, es[0]).value, es[1..], more);
    }
  }

  /** A waiting close is never lost: in every state a disciplined run reaches, unless no run is in flight and
      the last one ended in a failed pump registration, the run in flight and then the close can go on by
      their own steps until the server is closed, its handle destroyed once. */
  lemma WaitingCanClose(es: seq<Event>, a: int) returns (more: seq<Event>)
    requires Disciplined(INIT, es) && Run(INIT, es).Some?
    requires var s := Run(INIT, es).value; a in s.acts && s.acts[a].pc == Waiting
    requires var s := Run(INIT, es).value; InFlight(s) || !Failed(LastEnding(INIT, es, None))
    ensures var end := Run(Run(INIT, es).value, more);
            end.Some? && end.value.closed && end.value.destroys == 1 && a !in end.value.acts
    ensures forall e :: e in more ==> e.Go?
  {
    hide Run, Disciplined, LastEnding;
    var s := Run(INIT, es).value;
    RunKeeps(INIT, es);
    RunSettles(INIT, es, None);
    hide Inv;
    assert s.destroys == 0 by { WaitingUndestroyed(s, a); }
    if s.exited {
      DecidedCloses(s, a);
      more := Steps(a, 4);
    } else {
      assert InFlight(s);
      var r :| r in s.acts && (Live(s.acts[r].pc) || s.acts[r].pc == Cleared);
      RunFinishes(s, r);
      var k := Left(s.acts[r].pc);
      var s1 := Run(s, Steps(r, k)).value;
      DecidedCloses(s1, a);
      RunThen(s, Steps(r, k), Steps(a, 4));
      more := Steps(r, k) + Steps(a, 4);
      StepsGo(r, k);
    }
    StepsGo(a, 4);
  }

  lemma StepsGo(a: int, n: nat)
    ensures forall e :: e in Steps(a, n) ==> e.Go?
  {
  }

  lemma WaitingUndestroyed(s: State, a: int)
    requires Inv(s) && a in s.acts && s.acts[a].pc == Waiting
    ensures s.destroys == 0
  {
  }

  // -------------------------------------------------------------------------------------
  // Both halves of the discipline are needed
  // -------------------------------------------------------------------------------------

  ghost predicate Overlap(s: State, r: int, c: int) {
    r in s.acts && c in s.acts && s.acts[r].pc == InRun && s.acts[c].pc == InDestroy
  }

  /** A close made on the thread of the active run skips the wait and destroys under it. */
  lemma NestedCloseDestroys(s: State, r: int, c: int)
    requires r in s.acts && s.acts[r].pc == InRun && s.runThread == Some(s.acts[r].thread)
    requires !s.exited && !s.closed && s.lock == None && c !in s.acts
    ensures var end := Run(s, [CallClose(c, s.acts[r].thread)] + Steps(c, 5));
            end.Some? && Overlap(end.value, r, c)
  {
    hide Run;
    var th := s.acts[r].thread;
    var s0 := s.(acts := s.acts[c := Act(th, CloseCalled)]);
    var s1 := At(s0, c, Checking).(lock := Some(c));
    var s2 := At(s1, c, SawRunning);
    var s3 := At(s2, c, SawThread);
    var s4 := At(s3, c, Destroying);
    var s5 := At(s4, c, InDestroy).(destroys := s.destroys + 1);
    RunOne(s, CallClose(c, th), Steps(c, 5));
    StepsOne(s0, c, 5, s1);
    StepsOne(s1, c, 4, s2);
    StepsOne(s2, c, 3, s3);
    StepsOne(s3, c, 2, s4);
    StepsOne(s4, c, 1, s5);
    StepsNone(s5, c);
  }

  /** A second run made while one is active is refused by the native call, but its way out sets the
      event and empties the thread slot, so the next close destroys under the first run. */
  lemma SecondRunDestroys(s: State, r: int, b: int, c: int, th: int, th': int)
    requires r in s.acts && s.acts[r].pc == InRun && !s.closed && s.lock == None
    requires b !in s.acts && c !in s.acts && b != c
    ensures var mid := Run(s, [CallRun(b, th)] + Steps(b, 5));
            mid.Some? && mid.value.exited && r in mid.value.acts && mid.value.acts[r].pc == InRun
    ensures var mid := Run(s, [CallRun(b, th)] + Steps(b, 5)).value;
            var end := Run(mid, [CallClose(c, th')] + Steps(c, 3));
            end.Some? && Overlap(end.value, r, c)
  {
    hide Run;
    var s0 := s.(acts := s.acts[b := Act(th, RunCalled)]);
    var s1 := At(s0, b, Announced).(exited := false, runThread := Some(th));
    var s2 := At(s1, b, InRun);
    var s3 := At(s2, b, RunReturned);
    var s4 := At(s3, b, Cleared).(runThread := None);
    var s5 := Leave(s4, b).(exited := true);
    RunOne(s, CallRun(b, th), Steps(b, 5));
    StepsOne(s0, b, 5, s1);
    StepsOne(s1, b, 4, s2);
    StepsOne(s2, b, 3, s3);
    StepsOne(s3, b, 2, s4);
    StepsOne(s4, b, 1, s5);
    StepsNone(s5, b);
    ThenClose(s5, r, c, th');
  }

  lemma ThenClose(s: State, r: int, c: int, th: int)
    requires r in s.acts && s.acts[r].pc == InRun && s.exited && !s.closed && s.lock == None && c !in s.acts
    ensures var end := Run(s, [CallClose(c, th)] + Steps(c, 3));
            end.Some? && Overlap(end.value, r, c)
  {
    hide Run;
    var s0 := s.(acts := s.acts[c := Act(th, CloseCalled)]);
    var s1 := At(s0, c, Checking).(lock := Some(c));
    var s2 := At(s1, c, Destroying);
    var s3 := At(s2, c, InDestroy).(destroys := s.destroys + 1);
    RunOne(s, CallClose(c, th), Steps(c, 3));
    StepsOne(s0, c, 3, s1);
    StepsOne(s1, c, 2, s2);
    StepsOne(s2, c, 1, s3);
    StepsNone(s3, c);
  }
}
