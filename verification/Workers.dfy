/** Any number of workers interleaving their lock operations: progress in every reachable state,
    and completion of every maximal run. */
module Workers {
  import opened Spatial
  import opened LockOrder

  datatype Worker = Worker(held: seq<Lock>, rest: Program)

  type State = seq<Worker>

  predicate Free(s: State, l: Lock) { forall i :: 0 <= i < |s| ==> l !in s[i].held }

  /** A lock can only be taken while nobody holds it, oneself included; releasing never waits. */
  predicate CanStep(s: State, t: nat) {
    t < |s| && s[t].rest != [] && (s[t].rest[0].Acquire? ==> Free(s, s[t].rest[0].lock))
  }

  function Advance(w: Worker): Worker
    requires w.rest != [] && (w.rest[0].Release? ==> w.held != [])
  {
    match w.rest[0]
    case Acquire(l) => Worker(w.held + [l], w.rest[1..])
    case Release(_) => Worker(w.held[..|w.held| - 1], w.rest[1..])
    case Touch(_) => Worker(w.held, w.rest[1..])
  }

  /** One worker takes one step. */
  ghost predicate Next(s: State, t: nat, s': State) {
    CanStep(s, t) && (s[t].rest[0].Release? ==> s[t].held != []) && s' == s[t := Advance(s[t])]
  }

  /** A run: the workers that step, in order. */
  ghost predicate Runs(s: State, schedule: seq<nat>, s': State)
    decreases |schedule|
  {
    if schedule == [] then s' == s else exists m: State :: Next(s, schedule[0], m) && Runs(m, schedule[1..], s')
  }

  /** Workers about to make these calls, holding nothing. */
  function Start(calls: seq<seq<Call>>): State {
    seq(|calls|, i requires 0 <= i < |calls| => Worker([], Traces(calls[i])))
  }

  ghost predicate Inv(strict: bool, s: State) {
    forall i :: 0 <= i < |s| ==> Ordered(strict, s[i].held, s[i].rest, [])
  }

  lemma StartInv(strict: bool, calls: seq<seq<Call>>)
    requires strict ==> forall cs, c :: cs in calls && c in cs ==> !c.SpawnKnown?
    ensures Inv(strict, Start(calls))
  {
    hide Ordered, Traces;
    forall i | 0 <= i < |calls| ensures Ordered(strict, [], Traces(calls[i]), []) {
      assert calls[i] in calls;
      CallsOrdered(strict, calls[i]);
    }
  }

  lemma NextInv(strict: bool, s: State, t: nat, s': State)
    requires Inv(strict, s) && Next(s, t, s')
    ensures Inv(strict, s')
  {
    assert Ordered(strict, s[t].held, s[t].rest, []);
  }

  lemma {:induction false} RunsInv(strict: bool, s: State, schedule: seq<nat>, s': State)
    requires Inv(strict, s) && Runs(s, schedule, s')
    ensures Inv(strict, s')
    decreases |schedule|
  {
    hide Inv;
    if schedule != [] {
      var m: State :| Next(s, schedule[0], m) && Runs(m, schedule[1..], s');
      NextInv(strict, s, schedule[0], m);
      RunsInv(strict, m, schedule[1..], s');
    }
  }

  // -------------------------------------------------------------------------------------
  // Progress
  // -------------------------------------------------------------------------------------

  /** The worker that holds the highest lock, if any lock is held. */
  lemma {:induction false} HighestHeld(s: State) returns (t: nat, top: Lock, any: bool)
    ensures any ==> t < |s| && top in s[t].held && forall i, l :: 0 <= i < |s| && l in s[i].held ==> l <= top
    ensures !any ==> forall i :: 0 <= i < |s| ==> s[i].held == []
    decreases |s|
  {
    if s == [] {
      t, top, any := 0, 0, false;
    } else {
      var n := |s| - 1;
      t, top, any := HighestHeld(s[..n]);
      var high, some := HighestOf(s[n].held);
      if some && (!any || top < high) {
        t, top, any := n, high, true;
      }
    }
  }

  lemma {:induction false} HighestOf(held: seq<Lock>) returns (top: Lock, any: bool)
    ensures any ==> top in held && forall l :: l in held ==> l <= top
    ensures !any ==> held == []
    decreases |held|
  {
    if held == [] {
      top, any := 0, false;
    } else {
      top, any := HighestOf(held[1..]);
      assert held == [held[0]] + held[1..];
      if !any || top < held[0] {
        top, any := held[0], true;
      }
    }
  }

  predicate Done(s: State) { forall i :: 0 <= i < |s| ==> s[i].rest == [] }

  /** Deadlock freedom: whatever the workers have done so far, as long as one of them is unfinished
      some worker can take its next step. The holder of the highest lock is never blocked. */
  lemma Progress(s: State)
    requires Inv(false, s) && !Done(s)
    ensures exists t: nat :: CanStep(s, t)
  {
    var t, top, any := HighestHeld(s);
    if any {
      assert Ordered(false, s[t].held, s[t].rest, []);
      assert s[t].rest != [];
      assert CanStep(s, t);
    } else {
      var u: nat :| u < |s| && s[u].rest != [];
      assert Ordered(false, s[u].held, s[u].rest, []);
      assert CanStep(s, u);
    }
  }

  // -------------------------------------------------------------------------------------
  // Completion
  // -------------------------------------------------------------------------------------

  function Left(s: State): nat { if s == [] then 0 else |s[0].rest| + Left(s[1..]) }

  lemma {:induction false} LeftDrops(s: State, t: nat, w: Worker)
    requires t < |s| && |w.rest| + 1 == |s[t].rest|
    ensures Left(s[t := w]) + 1 == Left(s)
    decreases |s|
  {
    var s' := s[t := w];
    if t == 0 {
      assert s'[1..] == s[1..];
    } else {
      assert s'[1..] == s[1..][t - 1 := w];
      LeftDrops(s[1..], t - 1, w);
    }
  }

  lemma {:induction false} RunLength(s: State, schedule: seq<nat>, s': State)
    requires Runs(s, schedule, s')
    ensures |schedule| + Left(s') == Left(s)
    decreases |schedule|
  {
    if schedule != [] {
      var m: State :| Next(s, schedule[0], m) && Runs(m, schedule[1..], s');
      LeftDrops(s, schedule[0], Advance(s[schedule[0]]));
      RunLength(m, schedule[1..], s');
    }
  }

  /** No run of any workers making any calls can get stuck: it either has finished every call or can
      go on, and it never takes more steps than the calls have lock operations, so every maximal run
      completes them all. */
  lemma EveryRunCompletes(calls: seq<seq<Call>>, schedule: seq<nat>, s: State)
    requires Runs(Start(calls), schedule, s)
    ensures |schedule| + Left(s) == Left(Start(calls))
    ensures Done(s) || exists t: nat :: CanStep(s, t)
    ensures Done(s) ==> forall i :: 0 <= i < |s| ==> s[i].held == []
  {
    hide Runs, Start, Left, CanStep, Ordered;
    StartInv(false, calls);
    RunsInv(false, Start(calls), schedule, s);
    RunLength(Start(calls), schedule, s);
    if Done(s) {
      forall i | 0 <= i < |s| ensures s[i].held == [] { DoneHolds(s[i].held); }
    } else {
      Progress(s);
    }
  }

  lemma DoneHolds(held: seq<Lock>)
    requires Ordered(false, held, [], [])
    ensures held == []
  {
  }

  /** The order is what makes it so: two workers nesting two locks in opposite orders can each take
      their first lock, and then neither can go on. */
  lemma OppositeOrdersBlock(a: Lock, b: Lock, x: Thing)
    requires a != b
    ensures var s := [Worker([], Around(a, Use(b, x, true))), Worker([], Around(b, Use(a, x, true)))];
            exists s': State :: Runs(s, [0, 1], s') && !Done(s') && forall t: nat :: !CanStep(s', t)
  {
    var p, q := Around(a, Use(b, x, true)), Around(b, Use(a, x, true));
    var s := [Worker([], p), Worker([], q)];
    assert p[0] == Acquire(a) && p[1] == Acquire(b) && q[0] == Acquire(b) && q[1] == Acquire(a);
    var m := [Worker([a], p[1..]), Worker([], q)];
    var s' := [Worker([a], p[1..]), Worker([b], q[1..])];
    assert [] + [a] == [a] && [] + [b] == [b];
    assert Next(s, 0, m) by { assert s[0 := Advance(s[0])] == m; }
    assert Next(m, 1, s') by { assert m[1 := Advance(m[1])] == s'; }
    var schedule: seq<nat> := [0, 1];
    assert schedule[1..] == [1] && schedule[1..][1..] == [];
    assert Runs(s', [], s');
    assert Runs(m, schedule[1..], s');
    assert Runs(s, schedule, s');
    forall t: nat ensures !CanStep(s', t) {
      assert b in s'[1].held && a in s'[0].held;
      assert s'[0].rest[0] == Acquire(b) && s'[1].rest[0] == Acquire(a);
    }
    assert s'[0].rest != [];
  }

  // -------------------------------------------------------------------------------------
  // Exclusion
  // -------------------------------------------------------------------------------------

  /** A lock has one holder. */
  ghost predicate OneHolder(s: State) {
    forall i, j, l :: 0 <= i < |s| && 0 <= j < |s| && l in s[i].held && l in s[j].held ==> i == j
  }

  lemma NextHolder(s: State, t: nat, s': State)
    requires OneHolder(s) && Next(s, t, s')
    ensures OneHolder(s')
  {
    assert forall k :: 0 <= k < |s| && k != t ==> s'[k] == s[k];
    assert forall l :: l in s'[t].held ==> l in s[t].held || Free(s, l);
  }

  lemma {:induction false} RunsHolder(s: State, schedule: seq<nat>, s': State)
    requires OneHolder(s) && Runs(s, schedule, s')
    ensures OneHolder(s')
    decreases |schedule|
  {
    hide OneHolder;
    if schedule != [] {
      var m: State :| Next(s, schedule[0], m) && Runs(m, schedule[1..], s');
      NextHolder(s, schedule[0], m);
      RunsHolder(m, schedule[1..], s');
    }
  }

  /** The worker is about to touch the thing. */
  predicate About(w: Worker, x: Thing) { w.rest != [] && w.rest[0] == Touch(x) }

  /** Touching one interferes with touching the other. */
  predicate Conflicts(x: Thing, y: Thing) {
    x == y || (x.AllRows? && y.Row?) || (x.Row? && y.AllRows?)
    || (x.AllNativeRows? && y.NativeRow?) || (x.NativeRow? && y.AllNativeRows?)
  }

  /** A lock that guards both. */
  function Shared(x: Thing, y: Thing): (l: Lock)
    requires Conflicts(x, y)
    ensures forall held :: Guards(held, x) || Guards(held, y) ==> l in held
  {
    match x
    case Row(id) => Stripe(id)
    case AllRows => if y.Row? then Stripe(y.id) else 1
    case Book => BOOK
    case Bindings => CONTROL
    case NativeRow(id) => NativeStripe(id)
    case AllNativeRows => if y.NativeRow? then NativeStripe(y.id) else 3 + STRIPES
    case NativeBook => NATIVE_BOOK
    case Ring => RECORD
    case Recorder => RECORDER
  }

  /** Mutual exclusion: whatever the workers do, as long as none spawns a known principal in Python, no two
      of them are ever about to touch one actor, or one actor and the snapshot of all, or the bookkeeping,
      the bindings, the record ring or the recorder, at the same time. */
  lemma TouchesExclude(calls: seq<seq<Call>>, schedule: seq<nat>, s: State, i: nat, j: nat, x: Thing, y: Thing)
    requires Runs(Start(calls), schedule, s) && forall cs, c :: cs in calls && c in cs ==> !c.SpawnKnown?
    requires i < |s| && j < |s| && About(s[i], x) && About(s[j], y) && Conflicts(x, y)
    ensures i == j
  {
    hide Runs, Start, Conflicts;
    StartInv(true, calls);
    StartHolder(calls);
    RunsInv(true, Start(calls), schedule, s);
    RunsHolder(Start(calls), schedule, s);
    assert Ordered(true, s[i].held, s[i].rest, []) && Ordered(true, s[j].held, s[j].rest, []);
    var l := Shared(x, y);
    assert l in s[i].held && l in s[j].held;
  }

  /** With such a spawn they are not: it reads the actor while a movement is storing it. */
  lemma KnownSpawnOverlaps(id: int)
    ensures var s := [Worker([], Trace(Teleport(id, false))), Worker([], Trace(SpawnKnown(id)))];
            exists s': State :: |s'| == 2 && Runs(s, [0] + ([1] + ([1] + [])), s') && About(s'[0], Row(id))
                                && About(s'[1], Row(id))
  {
    var p, q := Trace(Teleport(id, false)), Trace(SpawnKnown(id));
    assert p == [Acquire(Stripe(id)), Touch(Row(id)), Release(Stripe(id))];
    assert q == [Acquire(CONTROL), Touch(Bindings), Touch(Row(id)), Release(CONTROL)];
    var s := [Worker([], p), Worker([], q)];
    var s1 := [Worker([Stripe(id)], p[1..]), Worker([], q)];
    var s2 := [Worker([Stripe(id)], p[1..]), Worker([CONTROL], q[1..])];
    var s3 := [Worker([Stripe(id)], p[1..]), Worker([CONTROL], q[1..][1..])];
    assert [] + [Stripe(id)] == [Stripe(id)] && [] + [CONTROL] == [CONTROL];
    assert About(s3[0], Row(id)) && About(s3[1], Row(id));
    hide Trace, Runs;
    assert Next(s, 0, s1) by { assert s[0 := Advance(s[0])] == s1; }
    assert Next(s1, 1, s2) by { assert s1[1 := Advance(s1[1])] == s2; }
    assert Next(s2, 1, s3) by { assert s2[1 := Advance(s2[1])] == s3; }
    hide Next;
    RunsNone(s3);
    RunsOne(s2, 1, s3, [], s3);
    RunsOne(s1, 1, s2, [1] + [], s3);
    RunsOne(s, 0, s1, [1] + ([1] + []), s3);
  }

  lemma RunsNone(s: State)
    ensures Runs(s, [], s)
  {
  }

  lemma RunsOne(s: State, t: nat, m: State, rest: seq<nat>, s': State)
    requires Next(s, t, m) && Runs(m, rest, s')
    ensures Runs(s, [t] + rest, s')
  {
    assert ([t] + rest)[1..] == rest;
  }

  lemma StartHolder(calls: seq<seq<Call>>)
    ensures OneHolder(Start(calls))
  {
  }
}
