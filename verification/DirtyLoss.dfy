/** Exactly which steps make the dirty set lose marks, and for how long. */
module DirtyLoss {
  import opened Prelude
  import opened Spatial
  import Circular
  import E = EpochTable
  import opened Probing
  import opened DirtySet
  import opened DirtyFlush
  import opened DirtyServe

  /** A flush takes over the cells of the open generation exactly when the generation does not wrap;
      when it does, no slot holds any cell. */
  lemma WrapLosesMarks(h: Hash, s: Core, t: Tid, c: Cell)
    requires Fair(s) && t !in s.flushers && Open(s, c)
    ensures AheadOf(Step(h, s, Begin(t)).value, t, c) <==> s.dirty.gen + 1 < U32
    ensures s.dirty.gen + 1 == U32 ==>
              forall j :: 0 <= j < |s.dirty.slots| ==> Step(h, s, Begin(t)).value.dirty.slots[j].stamp == 0
  {
    if s.dirty.gen + 1 < U32 { StepOpen(h, s, Begin(t), c); }
  }

  // -------------------------------------------------------------------------------------
  // Stranded slots
  // -------------------------------------------------------------------------------------

  /** The step ends a flush early, on a full epoch table or a failed publish, while slot `j` carries that
      flush's generation. */
  ghost predicate Strands(h: Hash, s: Core, ev: Event, j: nat)
    requires Sized(s)
  {
    j < |s.dirty.slots| && ReturnsEarly(h, s, ev) && s.dirty.slots[j].stamp == s.flushers[ev.t].gen
  }

  /** Exactly the early returns strand slots, and no step frees a stranded one: in any state a run
      reaches, a step that does not wrap the generation leaves a slot stranded if and only if it was or
      the step is an early return of the flush whose generation the slot carries. */
  lemma StrandsExactly(h: Hash, s: Core, ev: Event, j: nat)
    requires Fair(s) && Step(h, s, ev).Some? && !Wraps(s, ev) && j < |s.dirty.slots|
    ensures Stranded(Step(h, s, ev).value, j) <==> Stranded(s, j) || Strands(h, s, ev, j)
  {
    hide Step, StampFair, GensOk, Stranded, Strands;
    if Stranded(s, j) {
      assert forall t :: t in s.flushers ==> 1 <= s.flushers[t].gen by { Positive(s); }
      StrandedStays(h, s, ev, j);
    } else if Strands(h, s, ev, j) {
      StrandsNow(h, s, ev, j);
    } else {
      NotStranded(h, s, ev, j);
    }
  }

  lemma Positive(s: Core)
    requires GensOk(s)
    ensures forall t :: t in s.flushers ==> 1 <= s.flushers[t].gen
  {
  }

  /** A stranded slot is left alone by every step. */
  lemma StrandedStays(h: Hash, s: Core, ev: Event, i: nat)
    requires Sized(s) && 1 <= s.dirty.gen && (forall t :: t in s.flushers ==> 1 <= s.flushers[t].gen)
    requires Step(h, s, ev).Some? && !Wraps(s, ev) && Stranded(s, i)
    ensures Stranded(Step(h, s, ev).value, i) && Step(h, s, ev).value.dirty.slots[i] == s.dirty.slots[i]
  {
    hide E.Bump;
  }

  lemma StrandsNow(h: Hash, s: Core, ev: Event, j: nat)
    requires Fair(s) && Step(h, s, ev).Some? && Strands(h, s, ev, j)
    ensures Stranded(Step(h, s, ev).value, j)
  {
    hide E.Bump, StampFair;
  }

  lemma NotStranded(h: Hash, s: Core, ev: Event, j: nat)
    requires Fair(s) && Step(h, s, ev).Some? && !Wraps(s, ev) && j < |s.dirty.slots|
    requires !Stranded(s, j) && !Strands(h, s, ev, j)
    ensures !Stranded(Step(h, s, ev).value, j)
  {
    hide E.Bump;
    var s' := Step(h, s, ev).value;
    assert StampFair(s, j);
    var stamp := s.dirty.slots[j].stamp;
    if stamp == s.dirty.gen {
      if ev.Begin? { assert s'.flushers[ev.t].gen == stamp; }
    } else if stamp != 0 {
      var t :| t in s.flushers && s.flushers[t].gen == stamp;
      assert s'.dirty.slots[j].stamp != 0 ==> t in s'.flushers && s'.flushers[t].gen == stamp;
    }
  }

  /** Some step of the run stranded slot `j`. */
  ghost predicate SomeStrands(h: Hash, s: Core, evs: seq<Event>, j: nat)
    requires Sized(s) && AnyRun(h, s, evs).Some?
    decreases |evs|
  {
    evs != [] && (|| Strands(h, s, evs[0], j)
                  || (StepSized(h, s, evs[0]); SomeStrands(h, Step(h, s, evs[0]).value, evs[1..], j)))
  }

  /** Over whole runs: a slot is stranded if and only if it was to begin with or some early return of the
      run stranded it. */
  lemma {:induction false} RunStrandsExactly(h: Hash, s: Core, evs: seq<Event>, j: nat)
    requires Fair(s) && AnyRun(h, s, evs).Some? && j < |s.dirty.slots|
    ensures Stranded(AnyRun(h, s, evs).value, j) <==> Stranded(s, j) || SomeStrands(h, s, evs, j)
    decreases |evs|
  {
    hide Step, Wraps, Fair, Stranded, Strands;
    FairSized(s);
    if evs != [] {
      StepSized(h, s, evs[0]);
      StepFair(h, s, evs[0]);
      StrandsExactly(h, s, evs[0], j);
      RunStrandsExactly(h, Step(h, s, evs[0]).value, evs[1..], j);
    }
  }

  /** No early return of the run left a slot of its flush behind. */
  ghost predicate StrandsNone(h: Hash, s: Core, evs: seq<Event>)
    requires Sized(s) && AnyRun(h, s, evs).Some?
  {
    forall j: nat :: j < |s.dirty.slots| ==> !SomeStrands(h, s, evs, j)
  }

  /** So a state reached from the start obeys the invariant of healthy runs if and only if no early return
      ever left a slot of its flush behind. */
  lemma HealedExactly(h: Hash, n: nat, evs: seq<Event>)
    requires 0 < n && AnyRun(h, Init(n), evs).Some?
    ensures Good(AnyRun(h, Init(n), evs).value) <==> StrandsNone(h, Init(n), evs)
  {
    hide AnyRun, SomeStrands, Fair, Good, Stranded;
    var s, end := Init(n), AnyRun(h, Init(n), evs).value;
    InitFair(n);
    InitGood(n);
    AnyRunFair(h, s, evs);
    GoodExactly(s);
    GoodExactly(end);
    forall j: nat | j < n ensures Stranded(end, j) <==> SomeStrands(h, s, evs, j) { RunStrandsExactly(h, s, evs, j); }
    forall j: nat | j >= n ensures !Stranded(end, j) { PastEnd(end, j); }
  }

  // -------------------------------------------------------------------------------------
  // A generation whose flush does not return early
  // -------------------------------------------------------------------------------------

  /** The event is the early return of the flush of generation `g`. */
  ghost predicate FailsGen(h: Hash, s: Core, ev: Event, g: nat)
    requires Sized(s)
  {
    ReturnsEarly(h, s, ev) && s.flushers[ev.t].gen == g
  }

  ghost predicate Spares(h: Hash, s: Core, evs: seq<Event>, g: nat)
    requires Sized(s) && AnyRun(h, s, evs).Some?
    decreases |evs|
  {
    evs == [] || (!FailsGen(h, s, evs[0], g)
                  && (StepSized(h, s, evs[0]); Spares(h, Step(h, s, evs[0]).value, evs[1..], g)))
  }

  /** No slot of generation `g` is stranded. */
  ghost predicate Sound(s: Core, g: nat) {
    Fair(s) && forall j :: 0 <= j < |s.dirty.slots| && s.dirty.slots[j].stamp == g ==> !Stranded(s, j)
  }

  lemma InitSound(n: nat, g: nat)
    requires 0 < n
    ensures Sound(Init(n), g)
  {
  }

  lemma OpenSound(s: Core)
    requires Fair(s)
    ensures Sound(s, s.dirty.gen)
  {
  }

  lemma StepSound(h: Hash, s: Core, ev: Event, g: nat)
    requires Sound(s, g) && Step(h, s, ev).Some? && !Wraps(s, ev) && !FailsGen(h, s, ev, g)
    ensures Sound(Step(h, s, ev).value, g)
  {
    hide Step, Stranded, StampFair, GensOk;
    var s' := Step(h, s, ev).value;
    StepFair(h, s, ev);
    StepSized(h, s, ev);
    assert forall t :: t in s.flushers ==> 1 <= s.flushers[t].gen by { Positive(s); }
    forall j | 0 <= j < |s'.dirty.slots| && s'.dirty.slots[j].stamp == g ensures !Stranded(s', j) {
      StrandsExactly(h, s, ev, j);
      if Stranded(s, j) {
        StrandedStays(h, s, ev, j);
      } else if Strands(h, s, ev, j) {
        EarlySlots(h, s, ev);
      }
    }
  }

  lemma EarlySlots(h: Hash, s: Core, ev: Event)
    requires Sized(s) && Step(h, s, ev).Some? && ReturnsEarly(h, s, ev)
    ensures Step(h, s, ev).value.dirty == s.dirty
  {
    hide E.Bump;
  }

  lemma {:induction false} RunSound(h: Hash, s: Core, evs: seq<Event>, g: nat)
    requires Sound(s, g) && AnyRun(h, s, evs).Some? && Spares(h, s, evs, g)
    ensures Sound(AnyRun(h, s, evs).value, g)
    decreases |evs|
  {
    hide Step, Wraps, FailsGen, Fair, Stranded;
    FairSized(s);
    if evs != [] {
      StepSized(h, s, evs[0]);
      StepSound(h, s, evs[0], g);
      RunSound(h, Step(h, s, evs[0]).value, evs[1..], g);
    }
  }

  // -------------------------------------------------------------------------------------
  // Lost for good
  // -------------------------------------------------------------------------------------

  ghost predicate SlotFor(s: Core, j: nat, c: Cell) {
    j < |s.dirty.slots| && s.dirty.slots[j].stamp != 0 && s.dirty.slots[j].cell == c
  }

  /** The cell's only slot is stranded, as are all slots before it on the cell's probe path, and no flush
      has the cell in hand. */
  ghost predicate Lost(h: Hash, s: Core, c: Cell) {
    && Sized(s) && 1 <= s.dirty.gen
    && (forall t :: t in s.flushers
                    ==> 1 <= s.flushers[t].gen && (!s.flushers[t].Draining? ==> s.flushers[t].cell != c))
    && exists d: nat :: LostAt(h, s, c, d)
  }

  ghost predicate LostAt(h: Hash, s: Core, c: Cell, d: nat)
    requires Sized(s)
  {
    var n, home := |s.dirty.slots|, Home(h, |s.dirty.slots|, c);
    && d < n && s.dirty.slots[Circular.At(n, home, d)].cell == c
    && (forall x :: 0 <= x <= d ==> Stranded(s, Circular.At(n, home, x)))
    && (forall i: nat :: SlotFor(s, i, c) ==> i == Circular.At(n, home, d))
  }

  /** Every later mark of the cell changes nothing. */
  lemma LostMarkIsSwallowed(h: Hash, s: Core, c: Cell)
    requires Lost(h, s, c)
    ensures Mark(h, s.dirty, c) == s.dirty && Swallowed(h, s, c)
  {
    var d: nat :| LostAt(h, s, c, d);
    LostProbe(h, s, c, d);
  }

  /** The probe for the cell passes the slots before it and stops there. */
  lemma LostProbe(h: Hash, s: Core, c: Cell, d: nat)
    requires Sized(s) && LostAt(h, s, c, d)
    ensures Find(h, TagsOf(s.dirty.slots), c) == Some(Circular.At(|s.dirty.slots|, Home(h, |s.dirty.slots|, c), d))
    ensures Stranded(s, Circular.At(|s.dirty.slots|, Home(h, |s.dirty.slots|, c), d))
  {
    hide Home, Circular.At;
    var n, home, tags := |s.dirty.slots|, Home(h, |s.dirty.slots|, c), TagsOf(s.dirty.slots);
    forall x | 0 <= x < d ensures !Stops(tags[Circular.At(n, home, x)], c) {
      LostPath(h, s, c, d, x);
    }
    assert Stranded(s, Circular.At(n, home, d));
    assert Stops(tags[Circular.At(n, home, d)], c);
    var p := Probe(tags, home, 0, c);
    assert p.Some? && p.value <= d;
    assert !(p.value < d);
  }

  lemma LostPath(h: Hash, s: Core, c: Cell, d: nat, x: nat)
    requires Sized(s) && LostAt(h, s, c, d) && x < d
    ensures var i := Circular.At(|s.dirty.slots|, Home(h, |s.dirty.slots|, c), x);
            !Stops(TagsOf(s.dirty.slots)[i], c)
  {
    hide Home;
    var i := Circular.At(|s.dirty.slots|, Home(h, |s.dirty.slots|, c), x);
    assert Stranded(s, i);
    assert s.dirty.slots[i].cell == c ==> SlotFor(s, i, c);
  }

  lemma LostMark(h: Hash, s: Core, x: Cell, c: Cell)
    requires Lost(h, s, c)
    ensures Lost(h, s.(dirty := Mark(h, s.dirty, x)), c)
  {
    if x == c {
      LostMarkIsSwallowed(h, s, c);
    } else {
      var s' := s.(dirty := Mark(h, s.dirty, x));
      var d: nat :| LostAt(h, s, c, d);
      forall i: nat | SlotFor(s', i, c) ensures SlotFor(s, i, c) {}
      forall i: nat | Stranded(s, i) ensures Stranded(s', i) && s'.dirty.slots[i] == s.dirty.slots[i] {}
      assert LostAt(h, s', c, d);
    }
  }

  lemma LostFlush(h: Hash, s: Core, ev: Event, c: Cell)
    requires Lost(h, s, c) && !ev.MarkCell? && Step(h, s, ev).Some? && !Wraps(s, ev)
    ensures Lost(h, Step(h, s, ev).value, c)
  {
    var s' := Step(h, s, ev).value;
    var d: nat :| LostAt(h, s, c, d);
    var n, home := |s.dirty.slots|, Home(h, |s.dirty.slots|, c);
    StepSized(h, s, ev);
    LostHands(h, s, ev, c);
    hide Step;
    forall x | 0 <= x <= d
      ensures Stranded(s', Circular.At(n, home, x))
              && s'.dirty.slots[Circular.At(n, home, x)] == s.dirty.slots[Circular.At(n, home, x)]
    {
      StrandedStays(h, s, ev, Circular.At(n, home, x));
    }
    assert LostAt(h, s', c, d);
  }

  /** No flush gets hold of the cell, and no slot starts to hold it. */
  lemma LostHands(h: Hash, s: Core, ev: Event, c: Cell)
    requires Lost(h, s, c) && !ev.MarkCell? && Step(h, s, ev).Some? && !Wraps(s, ev)
    ensures var s' := Step(h, s, ev).value;
            && 1 <= s'.dirty.gen
            && (forall t :: t in s'.flushers
                            ==> 1 <= s'.flushers[t].gen && (!s'.flushers[t].Draining? ==> s'.flushers[t].cell != c))
            && (forall i: nat :: SlotFor(s', i, c) ==> SlotFor(s, i, c))
  {
    hide E.Bump;
    if ev.Scan? { LostNotDue(h, s, ev.t, c); }
  }

  lemma LostNotDue(h: Hash, s: Core, t: Tid, c: Cell)
    requires Lost(h, s, c) && t in s.flushers && s.flushers[t].i < |s.dirty.slots|
    ensures Due(s.dirty, s.flushers[t].i, s.flushers[t].gen) != Some(c)
  {
    var f := s.flushers[t];
    var d: nat :| LostAt(h, s, c, d);
    var n, home := |s.dirty.slots|, Home(h, |s.dirty.slots|, c);
    assert Stranded(s, Circular.At(n, home, d));
    if Due(s.dirty, f.i, f.gen) == Some(c) { assert SlotFor(s, f.i, c); }
  }

  /** No flush claims the cell from note `base` on. */
  ghost predicate Unclaimed(s: Core, c: Cell, base: nat) {
    forall k :: base <= k < |s.trail| ==> s.trail[k] != Claim(s.trail[k].gen, c)
  }

  lemma LostUnclaimed(h: Hash, s: Core, ev: Event, c: Cell, base: nat)
    requires Lost(h, s, c) && Step(h, s, ev).Some? && Unclaimed(s, c, base)
    ensures Unclaimed(Step(h, s, ev).value, c, base)
  {
    hide E.Bump;
    if ev.Scan? { LostNotDue(h, s, ev.t, c); }
    hide Lost;
  }

  /** Once a cell's only slot and all before it on its probe path are stranded, every later mark of the
      cell is swallowed and no flush ever claims it again, through any number of later flushes,
      overlapping, failing or not. */
  lemma {:induction false} LostForever(h: Hash, s: Core, evs: seq<Event>, c: Cell, base: nat)
    requires Lost(h, s, c) && AnyRun(h, s, evs).Some? && Unclaimed(s, c, base)
    ensures Lost(h, AnyRun(h, s, evs).value, c) && Unclaimed(AnyRun(h, s, evs).value, c, base)
    decreases |evs|
  {
    hide Step, Unclaimed, Lost;
    assert Sized(s) by { LostSized(h, s, c); }
    if evs != [] {
      StepSized(h, s, evs[0]);
      LostUnclaimed(h, s, evs[0], c, base);
      assert Lost(h, Step(h, s, evs[0]).value, c) by {
        if evs[0].MarkCell? {
          LostMark(h, s, evs[0].c, c);
          MarkStep(h, s, evs[0].c);
        } else {
          LostFlush(h, s, evs[0], c);
        }
      }
      LostForever(h, Step(h, s, evs[0]).value, evs[1..], c, base);
    }
  }

  lemma LostSized(h: Hash, s: Core, c: Cell)
    requires Lost(h, s, c)
    ensures Sized(s)
  {
  }

  lemma MarkStep(h: Hash, s: Core, x: Cell)
    requires Sized(s)
    ensures Step(h, s, MarkCell(x)) == Some(s.(dirty := Mark(h, s.dirty, x)))
  {
  }

  // -------------------------------------------------------------------------------------
  // A run that loses a cell
  // -------------------------------------------------------------------------------------

  /** Two marked cells, and the publish of the first fails. */
  function FailFirst(a: Cell, b: Cell): seq<Event> {
    [MarkCell(a)] + ([MarkCell(b)] + ([Begin(1)] + ([Scan(1)] + ([Bump(1)] + ([Offer(1, Failed)] + [])))))
  }

  /** The loss happens: from the initial state, whenever a cell's home slot comes right after another's,
      one failing publish of that other cell loses the cell for good. */
  lemma FailedPublishLosesCell(n: nat, h: Hash, a: Cell, b: Cell)
    requires 2 <= n && a != b && Home(h, n, a) == 0 && Home(h, n, b) == 1
    ensures AnyRun(h, Init(n), FailFirst(a, b)).Some? && Lost(h, AnyRun(h, Init(n), FailFirst(a, b)).value, b)
  {
    hide AnyRun, E.Bump;
    var s0 := Init(n);
    assert TagsOf(s0.dirty.slots)[Circular.At(n, 0, 0)] == None;
    var s1 := Step(h, s0, MarkCell(a)).value;
    assert s1.dirty.slots[0] == DirtySlot(a, 1);
    assert TagsOf(s1.dirty.slots)[Circular.At(n, 1, 0)] == None;
    var s2 := Step(h, s1, MarkCell(b)).value;
    assert s2.dirty.slots[1] == DirtySlot(b, 1);
    var s3 := Step(h, s2, Begin(1)).value;
    var s4 := Step(h, s3, Scan(1)).value;
    assert s4.flushers[1] == Claimed(1, 0, a);
    var s5 := Step(h, s4, Bump(1)).value;
    FirstBump(h, n, a);
    assert s5.flushers[1].Offering?;
    var s6 := Step(h, s5, Offer(1, Failed)).value;
    AnyStep(h, s0, MarkCell(a), [MarkCell(b)] + ([Begin(1)] + ([Scan(1)] + ([Bump(1)] + ([Offer(1, Failed)] + [])))));
    AnyStep(h, s1, MarkCell(b), [Begin(1)] + ([Scan(1)] + ([Bump(1)] + ([Offer(1, Failed)] + []))));
    AnyStep(h, s2, Begin(1), [Scan(1)] + ([Bump(1)] + ([Offer(1, Failed)] + [])));
    AnyStep(h, s3, Scan(1), [Bump(1)] + ([Offer(1, Failed)] + []));
    AnyStep(h, s4, Bump(1), [Offer(1, Failed)] + []);
    AnyStep(h, s5, Offer(1, Failed), []);
    AnyNone(h, s6);
    assert s6.dirty.slots[1] == DirtySlot(b, 1) && s6.dirty.gen == 2;
    assert Circular.At(n, 1, 0) == 1 && Stranded(s6, 1);
    assert LostAt(h, s6, b, 0);
  }

  lemma FirstBump(h: Hash, n: nat, a: Cell)
    requires 0 < n
    ensures |E.Empty(n)| == n && E.Bump(h, E.Empty(n), a).1 == 1
  {
    var tags := E.TagsOf(E.Empty(n));
    assert tags[Circular.At(n, Home(h, n, a), 0)] == None;
  }
}
