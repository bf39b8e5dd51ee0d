/** Flushes draining the dirty set slot by slot while workers keep marking and, since tick callbacks
    may overlap, while other flushes run. */
module DirtyFlush {
  import opened Prelude
  import opened Spatial
  import Circular
  import opened Probing
  import opened DirtySet
  import E = EpochTable

  type Tid = nat

  /** Where a running flush stands between its lock-protected sections. */
  datatype Flusher =
    | Draining(gen: nat, i: nat)                          // about to look at slot i
    | Claimed(gen: nat, i: nat, cell: Cell)               // slot i freed, epoch bump next
    | Offering(gen: nat, i: nat, cell: Cell, epoch: nat)  // epoch allocated, fabric publish next

  /** History: a slot claimed, an epoch allocated, a product offered, by the flush of a generation. */
  datatype Note =
    | Claim(gen: nat, cell: Cell)
    | Bumped(gen: nat, cell: Cell, epoch: nat)
    | Offered(gen: nat, cell: Cell, epoch: nat)

  datatype Core = Core(dirty: Table, epochs: E.Slots, flushers: map<Tid, Flusher>, trail: seq<Note>)

  datatype Reply = Accepted | Stale | Failed

  datatype Event =
    | MarkCell(c: Cell)
    | Begin(t: Tid)
    | Scan(t: Tid)
    | Bump(t: Tid)
    | Offer(t: Tid, reply: Reply)
    | End(t: Tid)

  function Init(n: nat): Core { Core(EmptyTable(n), E.Empty(n), map[], []) }

  // -------------------------------------------------------------------------------------
  // Steps
  // -------------------------------------------------------------------------------------

  function Put(s: Core, t: Tid, f: Flusher): Core { s.(flushers := s.flushers[t := f]) }

  function Leave(s: Core, t: Tid): Core { s.(flushers := s.flushers - {t}) }

  function DoBegin(s: Core, t: Tid): Option<Core> {
    if t in s.flushers then None else Some(Put(s.(dirty := Advance(s.dirty)), t, Draining(s.dirty.gen, 0)))
  }

  function DoScan(s: Core, t: Tid): Option<Core> {
    if t in s.flushers && s.flushers[t].Draining? && s.flushers[t].i < |s.dirty.slots| then
      var g, i := s.flushers[t].gen, s.flushers[t].i;
      var due := Due(s.dirty, i, g);
      if due.None? then Some(Put(s, t, Draining(g, i + 1)))
      else
        var s1 := s.(dirty := Release(s.dirty, i, g), trail := s.trail + [Claim(g, due.value)]);
        Some(Put(s1, t, Claimed(g, i, due.value)))
    else None
  }

  /** A full epoch table makes the flush return early. */
  function DoBump(h: Hash, s: Core, t: Tid): Option<Core>
    requires 0 < |s.epochs|
  {
    if t in s.flushers && s.flushers[t].Claimed? then
      var f := s.flushers[t];
      var r := E.Bump(h, s.epochs, f.cell);
      if r.1 == 0 then Some(Leave(s.(epochs := r.0), t))
      else
        var s1 := s.(epochs := r.0, trail := s.trail + [Bumped(f.gen, f.cell, r.1)]);
        Some(Put(s1, t, Offering(f.gen, f.i, f.cell, r.1)))
    else None
  }

  /** So does a publish that fails for a reason other than a stale epoch. */
  function DoOffer(s: Core, t: Tid, reply: Reply): Option<Core> {
    if t in s.flushers && s.flushers[t].Offering? then
      var f := s.flushers[t];
      var s1 := s.(trail := s.trail + [Offered(f.gen, f.cell, f.epoch)]);
      Some(if reply == Failed then Leave(s1, t) else Put(s1, t, Draining(f.gen, f.i + 1)))
    else None
  }

  function DoEnd(s: Core, t: Tid): Option<Core> {
    if t in s.flushers && s.flushers[t].Draining? && s.flushers[t].i == |s.dirty.slots| then Some(Leave(s, t))
    else None
  }

  function Step(h: Hash, s: Core, ev: Event): Option<Core>
    requires 0 < |s.dirty.slots| && 0 < |s.epochs|
  {
    match ev
    case MarkCell(c) => Some(s.(dirty := Mark(h, s.dirty, c)))
    case Begin(t) => DoBegin(s, t)
    case Scan(t) => DoScan(s, t)
    case Bump(t) => DoBump(h, s, t)
    case Offer(t, reply) => DoOffer(s, t, reply)
    case End(t) => DoEnd(s, t)
  }

  /** The step ends its flush before the drain is over. */
  predicate ReturnsEarly(h: Hash, s: Core, ev: Event)
    requires 0 < |s.epochs|
  {
    match ev
    case Bump(t) => t in s.flushers && s.flushers[t].Claimed? && E.Bump(h, s.epochs, s.flushers[t].cell).1 == 0
    case Offer(t, reply) => t in s.flushers && s.flushers[t].Offering? && reply == Failed
    case _ => false
  }

  predicate Wraps(s: Core, ev: Event) { ev.Begin? && U32 <= s.dirty.gen + 1 }

  predicate Healthy(h: Hash, s: Core, ev: Event)
    requires 0 < |s.epochs|
  {
    !ReturnsEarly(h, s, ev) && !Wraps(s, ev)
  }

  ghost predicate Sized(s: Core) { 0 < |s.dirty.slots| && 0 < |s.epochs| }

  lemma StepSized(h: Hash, s: Core, ev: Event)
    requires Sized(s) && Step(h, s, ev).Some?
    ensures Sized(Step(h, s, ev).value) && |Step(h, s, ev).value.dirty.slots| == |s.dirty.slots|
    ensures s.trail <= Step(h, s, ev).value.trail
  {
    hide E.Bump;
  }

  /** The state after a run of any steps, early returns included, in which the generation does not wrap. */
  ghost function AnyRun(h: Hash, s: Core, evs: seq<Event>): Option<Core>
    requires Sized(s)
    decreases |evs|
  {
    if evs == [] then Some(s)
    else if Step(h, s, evs[0]).None? || Wraps(s, evs[0]) then None
    else
      StepSized(h, s, evs[0]);
      AnyRun(h, Step(h, s, evs[0]).value, evs[1..])
  }

  /** The state after a healthy run, or None when a step was disabled or unhealthy. */
  ghost function Run(h: Hash, s: Core, evs: seq<Event>): Option<Core>
    requires Sized(s)
    decreases |evs|
  {
    if evs == [] then Some(s)
    else if Step(h, s, evs[0]).None? || !Healthy(h, s, evs[0]) then None
    else
      StepSized(h, s, evs[0]);
      Run(h, Step(h, s, evs[0]).value, evs[1..])
  }

  // -------------------------------------------------------------------------------------
  // The invariant of every run
  // -------------------------------------------------------------------------------------

  /** The first slot a flush has not decided yet. */
  function Frontier(f: Flusher): nat { if f.Draining? then f.i else f.i + 1 }

  ghost predicate GensOk(s: Core) {
    && (forall t :: t in s.flushers ==>
          1 <= s.flushers[t].gen < s.dirty.gen && Frontier(s.flushers[t]) <= |s.dirty.slots|)
    && (forall t, u :: t in s.flushers && u in s.flushers && t != u ==> s.flushers[t].gen != s.flushers[u].gen)
  }

  /** No stamp is newer than the open generation, and a running flush has left none of its own behind. */
  ghost predicate StampFair(s: Core, j: nat)
    requires j < |s.dirty.slots|
  {
    && s.dirty.slots[j].stamp <= s.dirty.gen
    && forall t :: t in s.flushers && s.flushers[t].gen == s.dirty.slots[j].stamp ==> Frontier(s.flushers[t]) <= j
  }

  ghost predicate Fair(s: Core) {
    && Sized(s) && 1 <= s.dirty.gen < U32 && GensOk(s)
    && forall j :: 0 <= j < |s.dirty.slots| ==> StampFair(s, j)
  }

  lemma FairSized(s: Core)
    requires Fair(s)
    ensures Sized(s)
  {
  }

  lemma InitFair(n: nat)
    requires 0 < n
    ensures Fair(Init(n))
  {
  }

  lemma StepGens(h: Hash, s: Core, ev: Event)
    requires Fair(s) && Step(h, s, ev).Some? && !Wraps(s, ev)
    ensures GensOk(Step(h, s, ev).value)
    ensures 1 <= Step(h, s, ev).value.dirty.gen < U32
  {
    hide E.Bump, GensOk, StampFair;
    StepSized(h, s, ev);
    var s' := Step(h, s, ev).value;
    match ev
    case MarkCell(_) => MarkGens(h, s, ev.c, s');
    case Begin(t) => BeginGens(s, t, s');
    case _ =>
      FrontierIn(s, ev.t);
      FlusherGens(s, ev.t, s');
  }

  lemma FrontierIn(s: Core, t: Tid)
    requires GensOk(s) && t in s.flushers
    ensures Frontier(s.flushers[t]) <= |s.dirty.slots|
  {
  }

  lemma MarkGens(h: Hash, s: Core, c: Cell, s': Core)
    requires Sized(s) && GensOk(s) && s' == s.(dirty := Mark(h, s.dirty, c))
    ensures GensOk(s')
  {
  }

  lemma BeginGens(s: Core, t: Tid, s': Core)
    requires GensOk(s) && 1 <= s.dirty.gen && s.dirty.gen + 1 < U32 && DoBegin(s, t) == Some(s')
    ensures GensOk(s')
  {
  }

  /** A flush that moves on keeps its generation. */
  lemma FlusherGens(s: Core, t: Tid, s': Core)
    requires GensOk(s) && t in s.flushers && s'.dirty.gen == s.dirty.gen && |s'.dirty.slots| == |s.dirty.slots|
    requires s'.flushers - {t} == s.flushers - {t}
    requires t in s'.flushers ==> && s'.flushers[t].gen == s.flushers[t].gen
                                  && Frontier(s'.flushers[t]) <= |s.dirty.slots|
    ensures GensOk(s')
  {
    forall u | u in s'.flushers && u != t ensures u in s.flushers && s'.flushers[u] == s.flushers[u] {
      assert u in (s'.flushers - {t});
      assert u in (s.flushers - {t});
    }
  }

  lemma StepStampFair(h: Hash, s: Core, ev: Event, j: nat)
    requires Fair(s) && Step(h, s, ev).Some? && !Wraps(s, ev) && j < |s.dirty.slots|
    ensures |Step(h, s, ev).value.dirty.slots| == |s.dirty.slots| && StampFair(Step(h, s, ev).value, j)
  {
    hide E.Bump;
    StepSized(h, s, ev);
    assert StampFair(s, j);
  }

  /** Every step keeps it, early returns included. */
  lemma StepFair(h: Hash, s: Core, ev: Event)
    requires Fair(s) && Step(h, s, ev).Some? && !Wraps(s, ev)
    ensures Fair(Step(h, s, ev).value)
  {
    hide Step, StampFair, GensOk;
    StepSized(h, s, ev);
    StepGens(h, s, ev);
    forall j | 0 <= j < |s.dirty.slots| ensures StampFair(Step(h, s, ev).value, j) { StepStampFair(h, s, ev, j); }
  }

  lemma {:induction false} AnyRunFair(h: Hash, s: Core, evs: seq<Event>)
    requires Fair(s) && AnyRun(h, s, evs).Some?
    ensures Fair(AnyRun(h, s, evs).value) && |AnyRun(h, s, evs).value.dirty.slots| == |s.dirty.slots|
    decreases |evs|
  {
    hide Step, Fair, Wraps;
    FairSized(s);
    if evs != [] {
      StepSized(h, s, evs[0]);
      StepFair(h, s, evs[0]);
      AnyRunFair(h, Step(h, s, evs[0]).value, evs[1..]);
    }
  }

  // -------------------------------------------------------------------------------------
  // The invariant of healthy runs
  // -------------------------------------------------------------------------------------

  /** Slot `j` is occupied under a stamp that is neither the open generation nor that of a running
      flush, so no flush will ever drain it. */
  ghost predicate Stranded(s: Core, j: nat) {
    && j < |s.dirty.slots| && s.dirty.slots[j].stamp != 0 && s.dirty.slots[j].stamp < s.dirty.gen
    && forall t :: t in s.flushers ==> s.flushers[t].gen != s.dirty.slots[j].stamp
  }

  /** The stamp is the open generation, or that of a running flush that has not passed the slot. */
  ghost predicate StampOk(s: Core, j: nat)
    requires j < |s.dirty.slots|
  {
    var stamp := s.dirty.slots[j].stamp;
    || stamp == 0 || stamp == s.dirty.gen
    || exists t :: t in s.flushers && s.flushers[t].gen == stamp && Frontier(s.flushers[t]) <= j
  }

  ghost predicate Good(s: Core) {
    && Sized(s) && 1 <= s.dirty.gen < U32 && GensOk(s)
    && forall j :: 0 <= j < |s.dirty.slots| ==> StampOk(s, j)
  }

  lemma StampOkExactly(s: Core, j: nat)
    requires GensOk(s) && j < |s.dirty.slots|
    ensures StampOk(s, j) <==> StampFair(s, j) && !Stranded(s, j)
  {
  }

  /** It is the invariant of every run with no slot stranded. */
  lemma GoodExactly(s: Core)
    ensures Good(s) <==> Fair(s) && forall j: nat :: !Stranded(s, j)
  {
    hide StampOk, StampFair, Stranded, GensOk;
    if GensOk(s) {
      forall j: nat | j < |s.dirty.slots| ensures StampOk(s, j) <==> StampFair(s, j) && !Stranded(s, j) {
        StampOkExactly(s, j);
      }
      forall j: nat | j >= |s.dirty.slots| ensures !Stranded(s, j) { PastEnd(s, j); }
    }
  }

  lemma PastEnd(s: Core, j: nat)
    requires j >= |s.dirty.slots|
    ensures !Stranded(s, j)
  {
  }

  lemma StepStamp(h: Hash, s: Core, ev: Event, j: nat)
    requires Good(s) && Step(h, s, ev).Some? && Healthy(h, s, ev) && j < |s.dirty.slots|
    ensures |Step(h, s, ev).value.dirty.slots| == |s.dirty.slots| && StampOk(Step(h, s, ev).value, j)
  {
    hide E.Bump, GensOk;
    StepSized(h, s, ev);
    var s' := Step(h, s, ev).value;
    assert StampOk(s, j);
    var stamp := s'.dirty.slots[j].stamp;
    if stamp != 0 && stamp != s'.dirty.gen {
      if ev.Begin? && stamp == s.dirty.gen {
        assert s'.flushers[ev.t].gen == stamp;
      } else {
        var t :| t in s.flushers && s.flushers[t].gen == stamp && Frontier(s.flushers[t]) <= j;
        assert t in s'.flushers && s'.flushers[t].gen == stamp && Frontier(s'.flushers[t]) <= j;
      }
    }
  }

  lemma StepGood(h: Hash, s: Core, ev: Event)
    requires Good(s) && Step(h, s, ev).Some? && Healthy(h, s, ev)
    ensures Good(Step(h, s, ev).value)
  {
    hide Step, StampOk, StampFair, GensOk, Stranded;
    GoodExactly(s);
    StepSized(h, s, ev);
    StepGens(h, s, ev);
    forall j | 0 <= j < |s.dirty.slots| ensures StampOk(Step(h, s, ev).value, j) { StepStamp(h, s, ev, j); }
  }

  lemma {:induction false} RunGood(h: Hash, s: Core, evs: seq<Event>)
    requires Good(s) && Run(h, s, evs).Some?
    ensures Good(Run(h, s, evs).value) && |Run(h, s, evs).value.dirty.slots| == |s.dirty.slots|
    decreases |evs|
  {
    hide Step, Good, Healthy;
    if evs != [] {
      assert Sized(s) by { GoodSized(s); }
      StepSized(h, s, evs[0]);
      StepGood(h, s, evs[0]);
      RunGood(h, Step(h, s, evs[0]).value, evs[1..]);
    }
  }

  lemma GoodSized(s: Core)
    requires Good(s)
    ensures Sized(s)
  {
  }

  lemma GoodFair(s: Core)
    requires Good(s)
    ensures Fair(s)
  {
    hide Good, Fair, Stranded;
    GoodExactly(s);
  }

  lemma InitGood(n: nat)
    requires 0 < n
    ensures Good(Init(n))
  {
  }

  // -------------------------------------------------------------------------------------
  // Where a cell waits
  // -------------------------------------------------------------------------------------

  /** The running flush `t` has not reached a slot of its generation that holds the cell. */
  ghost predicate AheadOf(s: Core, t: Tid, c: Cell) {
    t in s.flushers && exists j :: Frontier(s.flushers[t]) <= j < |s.dirty.slots|
                                   && s.dirty.slots[j] == DirtySlot(c, s.flushers[t].gen)
  }

  /** A slot of the open generation holds the cell. */
  ghost predicate Open(s: Core, c: Cell) {
    exists j :: 0 <= j < |s.dirty.slots| && s.dirty.slots[j] == DirtySlot(c, s.dirty.gen)
  }

  // -------------------------------------------------------------------------------------
  // Single steps of a run
  // -------------------------------------------------------------------------------------

  lemma RunStep(h: Hash, s: Core, ev: Event, rest: seq<Event>)
    requires Sized(s) && Step(h, s, ev).Some? && Healthy(h, s, ev)
    ensures Sized(Step(h, s, ev).value) && Run(h, s, [ev] + rest) == Run(h, Step(h, s, ev).value, rest)
  {
    StepSized(h, s, ev);
    assert ([ev] + rest)[1..] == rest;
  }

  lemma RunNone(h: Hash, s: Core)
    requires Sized(s)
    ensures Run(h, s, []) == Some(s)
  {
  }

  lemma AnyStep(h: Hash, s: Core, ev: Event, rest: seq<Event>)
    requires Sized(s) && Step(h, s, ev).Some? && !Wraps(s, ev)
    ensures Sized(Step(h, s, ev).value) && AnyRun(h, s, [ev] + rest) == AnyRun(h, Step(h, s, ev).value, rest)
  {
    StepSized(h, s, ev);
    assert ([ev] + rest)[1..] == rest;
  }

  lemma AnyNone(h: Hash, s: Core)
    requires Sized(s)
    ensures AnyRun(h, s, []) == Some(s)
  {
  }
}
