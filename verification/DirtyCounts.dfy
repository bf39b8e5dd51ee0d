/** How often a flush offers a marked cell, and exactly when that is once. */
module DirtyCounts {
  import opened Prelude
  import opened Spatial
  import Circular
  import E = EpochTable
  import opened Probing
  import opened DirtySet
  import opened DirtyFlush
  import opened DirtyLoss

  // -------------------------------------------------------------------------------------
  // When a mark takes a slot
  // -------------------------------------------------------------------------------------

  /** The mark writes into an empty slot. */
  predicate TakesSlot(h: Hash, t: Table, c: Cell)
    requires 0 < |t.slots|
  {
    var i := Find(h, TagsOf(t.slots), c);
    i.Some? && t.slots[i.value].stamp == 0
  }

  /** On the cell's probe path an empty slot lies before the first slot holding the cell. */
  ghost predicate EmptyBefore(h: Hash, t: Table, c: Cell)
    requires 0 < |t.slots|
  {
    var n, home := |t.slots|, Home(h, |t.slots|, c);
    exists x :: 0 <= x < n && t.slots[Circular.At(n, home, x)].stamp == 0 && NotWithin(t, home, x, c)
  }

  ghost predicate NotWithin(t: Table, home: nat, x: nat, c: Cell)
    requires home < |t.slots| && x < |t.slots|
  {
    forall y :: 0 <= y < x ==> TagsOf(t.slots)[Circular.At(|t.slots|, home, y)] != Some(c)
  }

  /** The guard, exactly: a mark takes a slot, a further one when the cell is already in the table, if
      and only if an empty slot comes before the first slot that holds the cell. */
  lemma TakesExactly(h: Hash, t: Table, c: Cell)
    requires 0 < |t.slots|
    ensures TakesSlot(h, t, c) <==> EmptyBefore(h, t, c)
  {
    var n, home, tags := |t.slots|, Home(h, |t.slots|, c), TagsOf(t.slots);
    var d := Probe(tags, home, 0, c);
    if EmptyBefore(h, t, c) {
      var x :| 0 <= x < n && t.slots[Circular.At(n, home, x)].stamp == 0 && NotWithin(t, home, x, c);
      assert Stops(tags[Circular.At(n, home, x)], c);
      assert d.Some? && d.value <= x;
      assert tags[Circular.At(n, home, d.value)] == None;
    }
    if TakesSlot(h, t, c) {
      assert t.slots[Circular.At(n, home, d.value)].stamp == 0;
      assert NotWithin(t, home, d.value, c);
    }
  }

  // -------------------------------------------------------------------------------------
  // Conservation
  // -------------------------------------------------------------------------------------

  /** How many of the first `k` slots hold the cell under stamp `g`. */
  function Count(slots: Slots, k: nat, g: nat, c: Cell): nat
    requires k <= |slots|
  {
    if k == 0 then 0 else Count(slots, k - 1, g, c) + if slots[k - 1] == DirtySlot(c, g) then 1 else 0
  }

  function Held(s: Core, g: nat, c: Cell): nat { Count(s.dirty.slots, |s.dirty.slots|, g, c) }

  /** How often the flush of generation `g` offered the cell. */
  function Tries(trail: seq<Note>, g: nat, c: Cell): nat {
    if trail == [] then 0
    else
      var last := trail[|trail| - 1];
      Tries(trail[..|trail| - 1], g, c) + if last.Offered? && last.gen == g && last.cell == c then 1 else 0
  }

  /** The flush of generation `g` has claimed the cell and not yet offered it. */
  ghost predicate InHand(s: Core, g: nat, c: Cell) {
    exists t :: t in s.flushers && s.flushers[t].gen == g && !s.flushers[t].Draining? && s.flushers[t].cell == c
  }

  ghost function Hand(s: Core, g: nat, c: Cell): nat { if InHand(s, g, c) then 1 else 0 }

  /** The mark takes a slot of generation `g` for the cell. */
  ghost predicate Takes(h: Hash, s: Core, ev: Event, g: nat, c: Cell)
    requires Sized(s)
  {
    ev == MarkCell(c) && s.dirty.gen == g && TakesSlot(h, s.dirty, c)
  }

  /** How many marks of the run did so. */
  ghost function Taken(h: Hash, s: Core, evs: seq<Event>, g: nat, c: Cell): nat
    requires Sized(s) && AnyRun(h, s, evs).Some?
    decreases |evs|
  {
    if evs == [] then 0
    else
      StepSized(h, s, evs[0]);
      (if Takes(h, s, evs[0], g, c) then 1 else 0) + Taken(h, Step(h, s, evs[0]).value, evs[1..], g, c)
  }

  lemma {:induction false} CountUpdate(slots: Slots, k: nat, i: nat, slot: DirtySlot, g: nat, c: Cell)
    requires k <= |slots| && i < |slots|
    ensures Count(slots[i := slot], k, g, c) + (if i < k && slots[i] == DirtySlot(c, g) then 1 else 0)
            == Count(slots, k, g, c) + (if i < k && slot == DirtySlot(c, g) then 1 else 0)
  {
    if k > 0 { CountUpdate(slots, k - 1, i, slot, g, c); }
  }

  lemma {:induction false} CountPositive(slots: Slots, k: nat, g: nat, c: Cell)
    requires k <= |slots|
    ensures Count(slots, k, g, c) > 0 <==> exists j :: 0 <= j < k && slots[j] == DirtySlot(c, g)
  {
    if k > 0 {
      CountPositive(slots, k - 1, g, c);
      if j :| 0 <= j < k && slots[j] == DirtySlot(c, g) { assert j == k - 1 || j < k - 1; }
    }
  }

  lemma TriesSnoc(trail: seq<Note>, note: Note, g: nat, c: Cell)
    ensures Tries(trail + [note], g, c)
            == Tries(trail, g, c) + if note.Offered? && note.gen == g && note.cell == c then 1 else 0
  {
    assert (trail + [note])[..|trail|] == trail;
  }

  /** The number of offers, plus one in hand, plus the slots still to be drained. */
  ghost function Stock(s: Core, g: nat, c: Cell): nat { Tries(s.trail, g, c) + Hand(s, g, c) + Held(s, g, c) }

  lemma MarkStock(h: Hash, s: Core, x: Cell, g: nat, c: Cell)
    requires Fair(s) && 1 <= g
    ensures Stock(s.(dirty := Mark(h, s.dirty, x)), g, c)
            == Stock(s, g, c) + if Takes(h, s, MarkCell(x), g, c) then 1 else 0
  {
    hide Count, Tries;
    var s' := s.(dirty := Mark(h, s.dirty, x));
    assert InHand(s', g, c) <==> InHand(s, g, c);
    if TakesSlot(h, s.dirty, x) {
      var i := Find(h, TagsOf(s.dirty.slots), x).value;
      CountUpdate(s.dirty.slots, |s.dirty.slots|, i, DirtySlot(x, s.dirty.gen), g, c);
    } else {
      assert Mark(h, s.dirty, x).slots == s.dirty.slots;
    }
  }

  /** Only flush `t` itself can have the cell in hand for its generation. */
  lemma HandOf(s: Core, t: Tid, g: nat, c: Cell)
    requires GensOk(s) && t in s.flushers && s.flushers[t].gen == g
    ensures InHand(s, g, c) <==> !s.flushers[t].Draining? && s.flushers[t].cell == c
  {
  }

  ghost predicate OthersStay(s: Core, s': Core, t: Tid) {
    forall u :: u != t ==> (u in s'.flushers <==> u in s.flushers)
                           && (u in s.flushers ==> s'.flushers[u] == s.flushers[u])
  }

  /** A step of flush `t` leaves other generations' hands alone. */
  lemma OtherHands(s: Core, s': Core, t: Tid, g: nat, c: Cell)
    requires OthersStay(s, s', t)
    requires t in s.flushers ==> s.flushers[t].gen != g
    requires t in s'.flushers ==> s'.flushers[t].gen != g
    ensures InHand(s', g, c) <==> InHand(s, g, c)
  {
    if InHand(s, g, c) {
      var u :| u in s.flushers && s.flushers[u].gen == g && !s.flushers[u].Draining? && s.flushers[u].cell == c;
      assert u in s'.flushers && s'.flushers[u] == s.flushers[u];
    }
    if InHand(s', g, c) {
      var u :| u in s'.flushers && s'.flushers[u].gen == g && !s'.flushers[u].Draining? && s'.flushers[u].cell == c;
      assert u in s.flushers && s'.flushers[u] == s.flushers[u];
    }
  }

  lemma ScanStock(s: Core, t: Tid, g: nat, c: Cell)
    requires Fair(s) && DoScan(s, t).Some? && 1 <= g
    ensures Stock(DoScan(s, t).value, g, c) == Stock(s, g, c)
  {
    hide Count, Tries, StampFair;
    var s' := DoScan(s, t).value;
    var f := s.flushers[t];
    var due := Due(s.dirty, f.i, f.gen);
    if due.Some? {
      CountUpdate(s.dirty.slots, |s.dirty.slots|, f.i, s.dirty.slots[f.i].(stamp := 0), g, c);
      TriesSnoc(s.trail, Claim(f.gen, due.value), g, c);
    }
    if f.gen == g {
      HandOf(s, t, g, c);
      ScanGens(s, t);
      HandOf(s', t, g, c);
    } else {
      OtherHands(s, s', t, g, c);
    }
  }

  lemma ScanGens(s: Core, t: Tid)
    requires Fair(s) && DoScan(s, t).Some?
    ensures GensOk(DoScan(s, t).value)
  {
    hide StampFair;
  }

  lemma BumpStock(h: Hash, s: Core, t: Tid, g: nat, c: Cell)
    requires Fair(s) && DoBump(h, s, t).Some? && !ReturnsEarly(h, s, Bump(t))
    ensures Stock(DoBump(h, s, t).value, g, c) == Stock(s, g, c)
  {
    hide Count, Tries, E.Bump, StampFair;
    var s' := DoBump(h, s, t).value;
    var f := s.flushers[t];
    TriesSnoc(s.trail, Bumped(f.gen, f.cell, s'.flushers[t].epoch), g, c);
    if f.gen == g {
      HandOf(s, t, g, c);
      StepGens(h, s, Bump(t));
      HandOf(s', t, g, c);
    } else {
      OtherHands(s, s', t, g, c);
    }
  }

  lemma OfferStock(h: Hash, s: Core, t: Tid, reply: Reply, g: nat, c: Cell)
    requires Fair(s) && DoOffer(s, t, reply).Some? && reply != Failed
    ensures Stock(DoOffer(s, t, reply).value, g, c) == Stock(s, g, c)
  {
    hide Count, Tries, E.Bump, StampFair;
    var s' := DoOffer(s, t, reply).value;
    var f := s.flushers[t];
    TriesSnoc(s.trail, Offered(f.gen, f.cell, f.epoch), g, c);
    if f.gen == g {
      HandOf(s, t, g, c);
      StepGens(h, s, Offer(t, reply));
      HandOf(s', t, g, c);
    } else {
      OtherHands(s, s', t, g, c);
    }
  }

  lemma EdgeStock(s: Core, s': Core, t: Tid, g: nat, c: Cell)
    requires s'.dirty.slots == s.dirty.slots && s'.trail == s.trail
    requires OthersStay(s, s', t)
    requires t in s.flushers ==> s.flushers[t].Draining?
    requires t in s'.flushers ==> s'.flushers[t].Draining?
    ensures Stock(s', g, c) == Stock(s, g, c)
  {
    hide Count, Tries;
    if InHand(s, g, c) {
      var u :| u in s.flushers && s.flushers[u].gen == g && !s.flushers[u].Draining? && s.flushers[u].cell == c;
      assert u in s'.flushers && s'.flushers[u] == s.flushers[u];
    }
    if InHand(s', g, c) {
      var u :| u in s'.flushers && s'.flushers[u].gen == g && !s'.flushers[u].Draining? && s'.flushers[u].cell == c;
      assert u in s.flushers && s'.flushers[u] == s.flushers[u];
    }
  }

  /** The early return of another generation's flush. */
  lemma EarlyStock(h: Hash, s: Core, ev: Event, g: nat, c: Cell)
    requires Fair(s) && Step(h, s, ev).Some? && ReturnsEarly(h, s, ev) && s.flushers[ev.t].gen != g
    ensures Stock(Step(h, s, ev).value, g, c) == Stock(s, g, c)
  {
    hide Count, Tries, E.Bump, StampFair;
    var s' := Step(h, s, ev).value;
    var f := s.flushers[ev.t];
    if ev.Offer? { TriesSnoc(s.trail, Offered(f.gen, f.cell, f.epoch), g, c); }
    OtherHands(s, s', ev.t, g, c);
  }

  lemma StepStock(h: Hash, s: Core, ev: Event, g: nat, c: Cell)
    requires Fair(s) && Step(h, s, ev).Some? && !Wraps(s, ev) && !FailsGen(h, s, ev, g) && 1 <= g
    ensures Stock(Step(h, s, ev).value, g, c) == Stock(s, g, c) + if Takes(h, s, ev, g, c) then 1 else 0
  {
    hide Stock, TakesSlot, E.Bump, Fair;
    FairSized(s);
    if ReturnsEarly(h, s, ev) {
      EarlyStock(h, s, ev, g, c);
    } else {
      match ev
      case MarkCell(x) => MarkStock(h, s, x, g, c);
      case Begin(t) => EdgeStock(s, Step(h, s, ev).value, t, g, c);
      case Scan(t) => ScanStock(s, t, g, c);
      case Bump(t) => BumpStock(h, s, t, g, c);
      case Offer(t, reply) => OfferStock(h, s, t, reply, g, c);
      case End(t) => EdgeStock(s, Step(h, s, ev).value, t, g, c);
    }
  }

  /** Conservation: over any run in which the flush of generation `g` does not return early, whatever other
      flushes do, its offers, plus the one in hand, plus slots to be drained, grow by exactly the marks
      that took a slot. */
  lemma {:induction false} StockConserved(h: Hash, s: Core, evs: seq<Event>, g: nat, c: Cell)
    requires Fair(s) && AnyRun(h, s, evs).Some? && Spares(h, s, evs, g) && 1 <= g
    ensures Stock(AnyRun(h, s, evs).value, g, c) == Stock(s, g, c) + Taken(h, s, evs, g, c)
    decreases |evs|
  {
    hide Stock, Takes, Step, Fair, Wraps, FailsGen;
    FairSized(s);
    if evs != [] {
      StepSized(h, s, evs[0]);
      StepStock(h, s, evs[0], g, c);
      StepFair(h, s, evs[0]);
      StockConserved(h, Step(h, s, evs[0]).value, evs[1..], g, c);
    }
  }

  // -------------------------------------------------------------------------------------
  // A flush that is over
  // -------------------------------------------------------------------------------------

  /** Generation `g` was closed and its flush has ended. */
  ghost predicate Over(s: Core, g: nat) {
    1 <= g < s.dirty.gen && forall t :: t in s.flushers ==> s.flushers[t].gen != g
  }

  lemma OverIsTried(s: Core, g: nat, c: Cell)
    requires Sound(s, g) && Over(s, g)
    ensures Stock(s, g, c) == Tries(s.trail, g, c)
  {
    hide Count, Tries;
    CountPositive(s.dirty.slots, |s.dirty.slots|, g, c);
    forall j | 0 <= j < |s.dirty.slots| ensures s.dirty.slots[j] != DirtySlot(c, g) {}
  }

  lemma InitStock(n: nat, g: nat, c: Cell)
    requires 0 < n && 1 <= g
    ensures Stock(Init(n), g, c) == 0
  {
    var s := Init(n);
    CountPositive(s.dirty.slots, n, g, c);
  }

  /** Marks of the cell that take a second slot of generation `g`: the cell has one of the open
      generation, and an empty slot comes first on its probe path. */
  ghost predicate Doubles(h: Hash, s: Core, ev: Event, g: nat, c: Cell)
    requires Sized(s)
  {
    ev == MarkCell(c) && s.dirty.gen == g && Open(s, c) && EmptyBefore(h, s.dirty, c)
  }

  ghost predicate SomeDoubles(h: Hash, s: Core, evs: seq<Event>, g: nat, c: Cell)
    requires Sized(s) && AnyRun(h, s, evs).Some?
    decreases |evs|
  {
    evs != [] && (Doubles(h, s, evs[0], g, c) || SomeDoubles(h, Step(h, s, evs[0]).value, evs[1..], g, c))
  }

  /** The slots generation `g` has for the cell while it is open. */
  ghost function Yet(s: Core, g: nat, c: Cell): nat { if s.dirty.gen == g then Held(s, g, c) else 0 }

  lemma YetStep(h: Hash, s: Core, ev: Event, g: nat, c: Cell)
    requires Fair(s) && Step(h, s, ev).Some? && !Wraps(s, ev) && 1 <= g
    ensures var s' := Step(h, s, ev).value;
            && s.dirty.gen <= s'.dirty.gen
            && (s'.dirty.gen == g ==> Yet(s', g, c) == Yet(s, g, c) + if Takes(h, s, ev, g, c) then 1 else 0)
    ensures Takes(h, s, ev, g, c) ==> Step(h, s, ev).value.dirty.gen == g
    ensures Yet(s, g, c) > 0 <==> s.dirty.gen == g && Open(s, c)
  {
    hide Count, Tries, E.Bump;
    var s' := Step(h, s, ev).value;
    CountPositive(s.dirty.slots, |s.dirty.slots|, g, c);
    CountPositive(s'.dirty.slots, |s'.dirty.slots|, g, c);
    if s'.dirty.gen == g {
      if ev.Begin? {
        forall j | 0 <= j < |s.dirty.slots| ensures s.dirty.slots[j] != DirtySlot(c, g) { assert StampFair(s, j); }
      } else if ev.MarkCell? {
        if TakesSlot(h, s.dirty, ev.c) {
          var i := Find(h, TagsOf(s.dirty.slots), ev.c).value;
          CountUpdate(s.dirty.slots, |s.dirty.slots|, i, DirtySlot(ev.c, g), g, c);
        }
      } else if ev.Scan? {
        var i := s.flushers[ev.t].i;
        CountUpdate(s.dirty.slots, |s.dirty.slots|, i, s.dirty.slots[i].(stamp := 0), g, c);
      }
    }
  }

  lemma {:induction false} TakenTwice(h: Hash, s: Core, evs: seq<Event>, g: nat, c: Cell)
    requires Fair(s) && AnyRun(h, s, evs).Some? && 1 <= g && Yet(s, g, c) <= 1
    ensures Yet(s, g, c) + Taken(h, s, evs, g, c) >= 2 <==> SomeDoubles(h, s, evs, g, c)
    decreases |evs|
  {
    hide Yet, Open, Step, Fair, Wraps, EmptyBefore, TakesSlot;
    FairSized(s);
    if evs != [] {
      StepSized(h, s, evs[0]);
      StepFair(h, s, evs[0]);
      YetStep(h, s, evs[0], g, c);
      TakesExactly(h, s.dirty, c);
      var s' := Step(h, s, evs[0]).value;
      YetClosed(s, s', g, c);
      if s'.dirty.gen > g {
        Closed(h, s', evs[1..], g, c);
      } else if Yet(s', g, c) <= 1 {
        TakenTwice(h, s', evs[1..], g, c);
      }
    }
  }

  lemma YetClosed(s: Core, s': Core, g: nat, c: Cell)
    ensures s.dirty.gen != g ==> Yet(s, g, c) == 0
    ensures s'.dirty.gen != g ==> Yet(s', g, c) == 0
  {
  }

  /** A closed generation takes no more slots. */
  lemma {:induction false} Closed(h: Hash, s: Core, evs: seq<Event>, g: nat, c: Cell)
    requires Fair(s) && AnyRun(h, s, evs).Some? && 1 <= g < s.dirty.gen
    ensures Taken(h, s, evs, g, c) == 0 && !SomeDoubles(h, s, evs, g, c)
    decreases |evs|
  {
    hide Step, Fair, Wraps, EmptyBefore, TakesSlot, Open;
    FairSized(s);
    if evs != [] {
      StepSized(h, s, evs[0]);
      StepFair(h, s, evs[0]);
      YetStep(h, s, evs[0], g, c);
      Closed(h, Step(h, s, evs[0]).value, evs[1..], g, c);
    }
  }

  /** How often a flush offers a cell, exactly, over every interleaving of marks and flushes, other
      flushes' early returns included: once the flush of generation `g` has ended it has offered the cell
      as often as marks took a slot for it, and that is at most once if and only if no mark of the cell in
      that generation met an empty slot before the cell's own while the generation already had one. */
  lemma OnceExactly(h: Hash, n: nat, evs: seq<Event>, g: nat, c: Cell)
    requires 0 < n && AnyRun(h, Init(n), evs).Some? && Spares(h, Init(n), evs, g)
    requires Over(AnyRun(h, Init(n), evs).value, g)
    ensures var s := AnyRun(h, Init(n), evs).value;
            && Tries(s.trail, g, c) == Taken(h, Init(n), evs, g, c)
            && (Tries(s.trail, g, c) <= 1 <==> !SomeDoubles(h, Init(n), evs, g, c))
  {
    hide Stock, Taken, SomeDoubles, Tries, AnyRun, Fair, Sound, Spares;
    InitFair(n);
    InitSound(n, g);
    RunSound(h, Init(n), evs, g);
    StockConserved(h, Init(n), evs, g, c);
    InitStock(n, g, c);
    OverIsTried(AnyRun(h, Init(n), evs).value, g, c);
    assert Yet(Init(n), g, c) == 0 by { InitYet(n, g, c); }
    TakenTwice(h, Init(n), evs, g, c);
  }

  lemma InitYet(n: nat, g: nat, c: Cell)
    requires 0 < n && 1 <= g
    ensures Yet(Init(n), g, c) == 0
  {
    CountPositive(Init(n).dirty.slots, n, g, c);
  }

  // -------------------------------------------------------------------------------------
  // Twice
  // -------------------------------------------------------------------------------------

  /** A cell that holds two slots of a generation is offered at least twice by that generation's flush,
      whatever happens until it has ended. */
  lemma DoubledIsOfferedTwice(h: Hash, s: Core, evs: seq<Event>, g: nat, c: Cell, i: nat, j: nat)
    requires Sound(s, g) && AnyRun(h, s, evs).Some? && Spares(h, s, evs, g) && Over(AnyRun(h, s, evs).value, g)
    requires i < j < |s.dirty.slots| && s.dirty.slots[i] == s.dirty.slots[j] == DirtySlot(c, g)
    ensures Tries(AnyRun(h, s, evs).value.trail, g, c) >= Tries(s.trail, g, c) + 2
  {
    hide Tries, AnyRun, Fair, Over, Taken, Hand, Count, Spares, Stranded;
    FairSized(s);
    RunSound(h, s, evs, g);
    OverPositive(AnyRun(h, s, evs).value, g);
    StockConserved(h, s, evs, g, c);
    OverIsTried(AnyRun(h, s, evs).value, g, c);
    CountTwo(s.dirty.slots, |s.dirty.slots|, g, c, i, j);
  }

  lemma OverPositive(s: Core, g: nat)
    requires Over(s, g)
    ensures 1 <= g
  {
  }

  lemma {:induction false} CountTwo(slots: Slots, k: nat, g: nat, c: Cell, i: nat, j: nat)
    requires i < j < k <= |slots| && slots[i] == slots[j] == DirtySlot(c, g)
    ensures Count(slots, k, g, c) >= 2
  {
    if j == k - 1 { CountPositive(slots, k - 1, g, c); } else { CountTwo(slots, k - 1, g, c, i, j); }
  }

  const A: Cell := Cell(0, 0, 0)
  const B: Cell := Cell(1, 0, 0)

  /** Mark B, start a flush, mark A, drain slot 0, mark A again. */
  const TWICE: seq<Event> := [MarkCell(B)] + ([Begin(1)] + ([MarkCell(A)] + ([Scan(1)] + ([MarkCell(A)] + []))))

  /** It happens: the drain frees a slot before A's on the probe path both share, the second mark of A
      takes it, and A has two slots of the open generation; its flush will offer it twice. */
  lemma InterleavedMarkDoubles(n: nat, h: Hash)
    requires 2 <= n && Home(h, n, A) == 0 && Home(h, n, B) == 0
    ensures var r := Run(h, Init(n), TWICE);
            && r.Some? && Good(r.value) && |r.value.dirty.slots| == n && r.value.dirty.gen == 2
            && r.value.trail == [Claim(1, B)]
            && r.value.dirty.slots[0] == r.value.dirty.slots[1] == DirtySlot(A, 2)
  {
    hide Run, E.Bump, Good;
    var s0 := Init(n);
    assert TagsOf(s0.dirty.slots)[Circular.At(n, 0, 0)] == None;
    var s1 := Step(h, s0, MarkCell(B)).value;
    var s2 := Step(h, s1, Begin(1)).value;
    var tags := TagsOf(s2.dirty.slots);
    assert tags[Circular.At(n, 0, 0)] == Some(B) && tags[Circular.At(n, 0, 1)] == None;
    assert Probe(tags, 0, 0, A) == Some(1);
    var s3 := Step(h, s2, MarkCell(A)).value;
    var s4 := Step(h, s3, Scan(1)).value;
    assert TagsOf(s4.dirty.slots)[Circular.At(n, 0, 0)] == None;
    var s5 := Step(h, s4, MarkCell(A)).value;
    RunStep(h, s0, MarkCell(B), [Begin(1)] + ([MarkCell(A)] + ([Scan(1)] + ([MarkCell(A)] + []))));
    RunStep(h, s1, Begin(1), [MarkCell(A)] + ([Scan(1)] + ([MarkCell(A)] + [])));
    RunStep(h, s2, MarkCell(A), [Scan(1)] + ([MarkCell(A)] + []));
    RunStep(h, s3, Scan(1), [MarkCell(A)] + []);
    RunStep(h, s4, MarkCell(A), []);
    RunNone(h, s5);
    InitGood(n);
    RunGood(h, s0, TWICE);
  }

  /** So whatever follows, once the flush of generation 2 has ended it has offered A at least twice. */
  lemma PublishedTwice(n: nat, h: Hash, evs: seq<Event>)
    requires 2 <= n && Home(h, n, A) == 0 && Home(h, n, B) == 0
    requires var r := Run(h, Init(n), TWICE);
             && r.Some? && Sized(r.value) && AnyRun(h, r.value, evs).Some? && Spares(h, r.value, evs, 2)
             && Over(AnyRun(h, r.value, evs).value, 2)
    ensures Sized(Run(h, Init(n), TWICE).value)
    ensures Tries(AnyRun(h, Run(h, Init(n), TWICE).value, evs).value.trail, 2, A) >= 2
  {
    hide Run, AnyRun, Good, Over, Spares, Fair, Stranded;
    InterleavedMarkDoubles(n, h);
    GoodExactly(Run(h, Init(n), TWICE).value);
    DoubledIsOfferedTwice(h, Run(h, Init(n), TWICE).value, evs, 2, A, 0, 1);
  }

  // -------------------------------------------------------------------------------------
  // Once
  // -------------------------------------------------------------------------------------

  /** Marks happen only while no flush runs. */
  ghost predicate Undisturbed(h: Hash, s: Core, evs: seq<Event>)
    requires Sized(s) && Run(h, s, evs).Some?
    decreases |evs|
  {
    evs == [] || ((evs[0].MarkCell? ==> Quiet(s)) && Undisturbed(h, Step(h, s, evs[0]).value, evs[1..]))
  }

  ghost predicate Quiet(s: Core) { forall t :: t !in s.flushers }

  /** Between flushes the table is chained; during one no slot carries the open generation. */
  ghost predicate Calm(h: Hash, s: Core) {
    && Good(s)
    && (Quiet(s) ==> Chained(h, TagsOf(s.dirty.slots)))
    && (!Quiet(s) ==> forall j :: 0 <= j < |s.dirty.slots| ==> s.dirty.slots[j].stamp != s.dirty.gen)
  }

  lemma MarkKeepsChained(h: Hash, t: Table, c: Cell)
    requires 0 < |t.slots| && 1 <= t.gen && Chained(h, TagsOf(t.slots))
    ensures Chained(h, TagsOf(Mark(h, t, c).slots))
  {
    var f := Find(h, TagsOf(t.slots), c);
    if f.Some? {
      InsertKeepsChained(h, TagsOf(t.slots), c);
      assert TagsOf(Mark(h, t, c).slots) == TagsOf(t.slots)[f.value := Some(c)];
    }
  }

  lemma NoSlotsChained(h: Hash, slots: Slots)
    requires forall j :: 0 <= j < |slots| ==> slots[j].stamp == 0
    ensures Chained(h, TagsOf(slots))
  {
  }

  lemma StepCalm(h: Hash, s: Core, ev: Event)
    requires Calm(h, s) && Step(h, s, ev).Some? && Healthy(h, s, ev) && (ev.MarkCell? ==> Quiet(s))
    ensures Calm(h, Step(h, s, ev).value)
  {
    hide E.Bump, Chained;
    var s' := Step(h, s, ev).value;
    StepGood(h, s, ev);
    if ev.MarkCell? {
      MarkKeepsChained(h, s.dirty, ev.c);
    } else if ev.Begin? {
      assert ev.t in s'.flushers;
      forall j | 0 <= j < |s.dirty.slots| ensures s'.dirty.slots[j].stamp != s'.dirty.gen { assert StampOk(s, j); }
    } else {
      assert ev.t in s.flushers;
      assert ev.End? || ev.t in s'.flushers;
      if Quiet(s') {
        forall j | 0 <= j < |s'.dirty.slots| ensures s'.dirty.slots[j].stamp == 0 { assert StampOk(s', j); }
        NoSlotsChained(h, s'.dirty.slots);
      }
    }
  }

  lemma {:induction false} RunCalm(h: Hash, s: Core, evs: seq<Event>)
    requires Calm(h, s) && Run(h, s, evs).Some? && Undisturbed(h, s, evs)
    ensures Calm(h, Run(h, s, evs).value)
    decreases |evs|
  {
    hide Step, Healthy, Good, Chained;
    if evs != [] {
      GoodSized(s);
      StepSized(h, s, evs[0]);
      StepCalm(h, s, evs[0]);
      RunCalm(h, Step(h, s, evs[0]).value, evs[1..]);
    }
  }

  lemma {:induction false} ChainedCount(h: Hash, slots: Slots, k: nat, g: nat, c: Cell)
    requires k <= |slots| && Chained(h, TagsOf(slots)) && g != 0
    ensures Count(slots, k, g, c) <= 1
  {
    hide Chained;
    if k > 0 {
      ChainedCount(h, slots, k - 1, g, c);
      CountPositive(slots, k - 1, g, c);
      if slots[k - 1] == DirtySlot(c, g) {
        forall j | 0 <= j < k - 1 ensures slots[j] != DirtySlot(c, g) {
          if slots[j] == DirtySlot(c, g) { ChainedUnique(h, TagsOf(slots), j, k - 1); }
        }
      }
    }
  }

  /** A flush that does not return early offers a cell as often as its generation holds slots for it when
      it begins, whatever interleaves afterwards. */
  lemma OfferedPerSlot(h: Hash, s: Core, t: Tid, evs: seq<Event>, c: Cell)
    requires Fair(s) && AnyRun(h, s, [Begin(t)] + evs).Some? && Spares(h, s, [Begin(t)] + evs, s.dirty.gen)
    requires Over(AnyRun(h, s, [Begin(t)] + evs).value, s.dirty.gen)
    ensures Tries(AnyRun(h, s, [Begin(t)] + evs).value.trail, s.dirty.gen, c)
            == Tries(s.trail, s.dirty.gen, c) + Held(s, s.dirty.gen, c)
  {
    hide Tries, Fair, Over, Count, Sound, FailsGen;
    var g, all := s.dirty.gen, [Begin(t)] + evs;
    FairSized(s);
    assert all[1..] == evs;
    StepFair(h, s, Begin(t));
    var s1 := Step(h, s, Begin(t)).value;
    OpenSound(s);
    RunSound(h, s, all, g);
    GenPositive(s, c);
    StepStock(h, s, Begin(t), g, c);
    StockConserved(h, s1, evs, g, c);
    Closed(h, s1, evs, g, c);
    OverIsTried(AnyRun(h, s, all).value, g, c);
  }

  lemma GenPositive(s: Core, c: Cell)
    requires Fair(s)
    ensures 1 <= s.dirty.gen && !InHand(s, s.dirty.gen, c)
  {
  }

  /** When no mark has interleaved a drain and no flush has returned early, a flush offers every marked
      cell exactly once and nothing else, however often the cell was marked, and whatever interleaves the
      flush itself. */
  lemma ExactlyOnce(h: Hash, n: nat, history: seq<Event>, t: Tid, evs: seq<Event>, c: Cell)
    requires 0 < n && Run(h, Init(n), history).Some? && Undisturbed(h, Init(n), history)
    requires var s := Run(h, Init(n), history).value;
             && Sized(s) && Quiet(s) && AnyRun(h, s, [Begin(t)] + evs).Some?
             && Spares(h, s, [Begin(t)] + evs, s.dirty.gen)
             && Over(AnyRun(h, s, [Begin(t)] + evs).value, s.dirty.gen)
    ensures var s := Run(h, Init(n), history).value;
            Tries(AnyRun(h, s, [Begin(t)] + evs).value.trail, s.dirty.gen, c)
            == Tries(s.trail, s.dirty.gen, c) + (if Open(s, c) then 1 else 0)
  {
    hide Run, AnyRun, Spares, Undisturbed, Tries, Good, Fair, Over, Count, Chained;
    var s := Run(h, Init(n), history).value;
    InitGood(n);
    assert Calm(h, Init(n)) by { NoSlotsChained(h, Init(n).dirty.slots); }
    RunCalm(h, Init(n), history);
    GoodFair(s);
    OfferedPerSlot(h, s, t, evs, c);
    GenPositive(s, c);
    ChainedCount(h, s.dirty.slots, |s.dirty.slots|, s.dirty.gen, c);
    CountPositive(s.dirty.slots, |s.dirty.slots|, s.dirty.gen, c);
  }
}
