/** Which marks a flush serves: a mark that is neither dropped nor swallowed by a stranded slot is never
    lost, and the next flush to begin serves exactly the cells of the generation it takes over. */
module DirtyServe {
  import opened Prelude
  import opened Spatial
  import Circular
  import E = EpochTable
  import opened Probing
  import opened DirtySet
  import opened DirtyFlush

  // -------------------------------------------------------------------------------------
  // Served
  // -------------------------------------------------------------------------------------

  /** Notes `i`, `j` and `k` are the flush of generation `g` claiming the cell, allocating its epoch and
      offering it. */
  ghost predicate Chain(trail: seq<Note>, i: nat, j: nat, k: nat, g: nat, c: Cell) {
    && i < j < k < |trail| && trail[i] == Claim(g, c)
    && trail[j].Bumped? && trail[j].gen == g && trail[j].cell == c && trail[k] == Offered(g, c, trail[j].epoch)
  }

  /** That flush claimed, bumped and offered the cell, all after the first `base` notes. */
  ghost predicate ServedBy(s: Core, g: nat, c: Cell, base: nat) {
    exists i: nat, j: nat, k: nat :: base <= i && Chain(s.trail, i, j, k, g, c)
  }

  /** Some flush did. */
  ghost predicate Served(s: Core, c: Cell, base: nat) { exists g: nat :: ServedBy(s, g, c, base) }

  /** The running flush `t` has claimed the cell after `base` and is on its way to offer it. */
  ghost predicate Moving(s: Core, t: Tid, c: Cell, base: nat) {
    && t in s.flushers && !s.flushers[t].Draining? && s.flushers[t].cell == c
    && var f := s.flushers[t];
       exists i: nat :: && base <= i < |s.trail| && s.trail[i] == Claim(f.gen, c)
                        && (f.Offering? ==> BumpAfter(s.trail, i, Bumped(f.gen, c, f.epoch)))
  }

  ghost predicate BumpAfter(trail: seq<Note>, i: nat, note: Note) {
    exists j: nat :: i < j < |trail| && trail[j] == note
  }

  /** The event is the early return of flush `t`. */
  ghost predicate Fails(h: Hash, s: Core, ev: Event, t: Tid)
    requires Sized(s)
  {
    ReturnsEarly(h, s, ev) && ev.t == t
  }

  /** The running flush `t` gets to its end, and does not return early before. */
  ghost predicate Completes(h: Hash, s: Core, evs: seq<Event>, t: Tid)
    requires Sized(s) && AnyRun(h, s, evs).Some?
    decreases |evs|
  {
    evs != [] && (evs[0] == End(t)
                  || (!Fails(h, s, evs[0], t)
                      && (StepSized(h, s, evs[0]); Completes(h, Step(h, s, evs[0]).value, evs[1..], t))))
  }

  lemma StepServed(h: Hash, s: Core, ev: Event, g: nat, c: Cell, base: nat)
    requires Sized(s) && Step(h, s, ev).Some? && ServedBy(s, g, c, base)
    ensures ServedBy(Step(h, s, ev).value, g, c, base)
  {
    hide Step;
    StepSized(h, s, ev);
    var i: nat, j: nat, k: nat :| base <= i && Chain(s.trail, i, j, k, g, c);
    assert Chain(Step(h, s, ev).value.trail, i, j, k, g, c);
  }

  /** Slots of the open generation stay until a flush begins and takes the generation over. */
  lemma StepOpen(h: Hash, s: Core, ev: Event, c: Cell)
    requires Fair(s) && Step(h, s, ev).Some? && !Wraps(s, ev) && Open(s, c)
    ensures if ev.Begin? then AheadOf(Step(h, s, ev).value, ev.t, c) else Open(Step(h, s, ev).value, c)
  {
    hide E.Bump, StampFair;
    var s' := Step(h, s, ev).value;
    var j :| 0 <= j < |s.dirty.slots| && s.dirty.slots[j] == DirtySlot(c, s.dirty.gen);
    assert s'.dirty.slots[j] == s.dirty.slots[j];
  }

  /** No step touches a slot of a flush's generation but that flush's own scan of it. */
  lemma StepAhead(h: Hash, s: Core, ev: Event, t: Tid, c: Cell, base: nat)
    requires Fair(s) && Step(h, s, ev).Some? && !Wraps(s, ev) && !Fails(h, s, ev, t)
    requires AheadOf(s, t, c) && base <= |s.trail|
    ensures var s' := Step(h, s, ev).value;
            && ev != End(t) && t in s'.flushers && s'.flushers[t].gen == s.flushers[t].gen
            && (AheadOf(s', t, c) || Moving(s', t, c, base))
  {
    hide E.Bump, StampFair;
    var s' := Step(h, s, ev).value;
    var j :| Frontier(s.flushers[t]) <= j < |s.dirty.slots| && s.dirty.slots[j] == DirtySlot(c, s.flushers[t].gen);
    if ev == Scan(t) && s.flushers[t].i == j {
      assert s'.trail[|s.trail|] == Claim(s.flushers[t].gen, c);
    } else {
      assert s'.dirty.slots[j] == s.dirty.slots[j];
    }
  }

  lemma StepMoving(h: Hash, s: Core, ev: Event, t: Tid, c: Cell, base: nat)
    requires Fair(s) && Step(h, s, ev).Some? && !Wraps(s, ev) && !Fails(h, s, ev, t) && Moving(s, t, c, base)
    ensures var s' := Step(h, s, ev).value;
            && ev != End(t) && t in s'.flushers && s'.flushers[t].gen == s.flushers[t].gen
            && (Moving(s', t, c, base) || ServedBy(s', s.flushers[t].gen, c, base))
  {
    hide E.Bump, StampFair, GensOk;
    var s' := Step(h, s, ev).value;
    StepSized(h, s, ev);
    var f := s.flushers[t];
    var i: nat :| && base <= i < |s.trail| && s.trail[i] == Claim(f.gen, c)
                  && (f.Offering? ==> BumpAfter(s.trail, i, Bumped(f.gen, c, f.epoch)));
    assert s'.trail[i] == s.trail[i];
    if ev == Bump(t) {
      assert s'.trail[|s.trail|] == Bumped(f.gen, c, s'.flushers[t].epoch);
    } else if f.Offering? {
      var j: nat :| i < j < |s.trail| && s.trail[j] == Bumped(f.gen, c, f.epoch);
      assert s'.trail[j] == s.trail[j];
      if ev.Offer? && ev.t == t { assert Chain(s'.trail, i, j, |s.trail|, f.gen, c); }
    }
  }

  /** A flush that completes serves every cell still ahead of it, whatever other flushes do, early
      returns included. */
  lemma {:induction false} TakenIsServed(h: Hash, s: Core, evs: seq<Event>, t: Tid, g: nat, c: Cell, base: nat)
    requires Fair(s) && AnyRun(h, s, evs).Some? && base <= |s.trail|
    requires || ServedBy(s, g, c, base)
             || ((AheadOf(s, t, c) || Moving(s, t, c, base)) && s.flushers[t].gen == g && Completes(h, s, evs, t))
    ensures ServedBy(AnyRun(h, s, evs).value, g, c, base)
    decreases |evs|
  {
    hide Step, Fair, Wraps, Fails, AheadOf, Moving, ServedBy;
    FairSized(s);
    if evs != [] {
      StepSized(h, s, evs[0]);
      StepFair(h, s, evs[0]);
      if ServedBy(s, g, c, base) {
        StepServed(h, s, evs[0], g, c, base);
      } else if AheadOf(s, t, c) {
        if evs[0] == End(t) { NotOver(h, s, t, c, base); }
        StepAhead(h, s, evs[0], t, c, base);
      } else {
        if evs[0] == End(t) { NotOver(h, s, t, c, base); }
        StepMoving(h, s, evs[0], t, c, base);
      }
      TakenIsServed(h, Step(h, s, evs[0]).value, evs[1..], t, g, c, base);
    }
  }

  lemma NotOver(h: Hash, s: Core, t: Tid, c: Cell, base: nat)
    requires Sized(s) && (AheadOf(s, t, c) || Moving(s, t, c, base))
    ensures Step(h, s, End(t)).None?
  {
  }

  // -------------------------------------------------------------------------------------
  // What a flush serves, exactly
  // -------------------------------------------------------------------------------------

  /** No slot holds the cell under generation `g`, which is closed, and no claim of it from `base` on. */
  ghost predicate Without(s: Core, g: nat, c: Cell, base: nat) {
    && 1 <= g < s.dirty.gen && base <= |s.trail|
    && (forall j :: 0 <= j < |s.dirty.slots| ==> s.dirty.slots[j] != DirtySlot(c, g))
    && (forall k :: base <= k < |s.trail| ==> s.trail[k] != Claim(g, c))
  }

  /** A closed generation gains no slots. */
  lemma StepWithout(h: Hash, s: Core, ev: Event, g: nat, c: Cell, base: nat)
    requires Sized(s) && Without(s, g, c, base) && Step(h, s, ev).Some? && !Wraps(s, ev)
    ensures Without(Step(h, s, ev).value, g, c, base)
  {
    hide E.Bump;
    StepSized(h, s, ev);
  }

  lemma {:induction false} RunWithout(h: Hash, s: Core, evs: seq<Event>, g: nat, c: Cell, base: nat)
    requires Sized(s) && Without(s, g, c, base) && AnyRun(h, s, evs).Some?
    ensures Without(AnyRun(h, s, evs).value, g, c, base)
    decreases |evs|
  {
    hide Step, Wraps, Without;
    if evs != [] {
      StepSized(h, s, evs[0]);
      StepWithout(h, s, evs[0], g, c, base);
      RunWithout(h, Step(h, s, evs[0]).value, evs[1..], g, c, base);
    }
  }

  /** What a flush serves, exactly, whatever marks and other flushes do meanwhile: a flush that completes
      claims, bumps and offers the cells that held a slot of the open generation when it began, and no
      others. */
  lemma FlushServesExactly(h: Hash, s: Core, u: Tid, after: seq<Event>, c: Cell, base: nat)
    requires Fair(s) && u !in s.flushers && !Wraps(s, Begin(u)) && base <= |s.trail|
    requires forall k :: base <= k < |s.trail| ==> s.trail[k] != Claim(s.dirty.gen, c)
    requires var s' := Step(h, s, Begin(u)).value;
             Sized(s') && AnyRun(h, s', after).Some? && Completes(h, s', after, u)
    ensures ServedBy(AnyRun(h, Step(h, s, Begin(u)).value, after).value, s.dirty.gen, c, base) <==> Open(s, c)
  {
    hide AnyRun, Completes, Chain, AheadOf;
    var s' := Step(h, s, Begin(u)).value;
    StepFair(h, s, Begin(u));
    if Open(s, c) {
      StepOpen(h, s, Begin(u), c);
      TakenIsServed(h, s', after, u, s.dirty.gen, c, base);
    } else {
      RunWithout(h, s', after, s.dirty.gen, c, base);
      NeverServed(AnyRun(h, s', after).value, s.dirty.gen, c, base);
    }
  }

  lemma NeverServed(s: Core, g: nat, c: Cell, base: nat)
    requires Without(s, g, c, base)
    ensures !ServedBy(s, g, c, base)
  {
  }

  /** Every slot of the cell is older than the open generation and not of flush `u`, and no flush has
      claimed the cell from `base` on. */
  ghost predicate Older(s: Core, u: Tid, c: Cell, base: nat) {
    && base <= |s.trail| && 1 <= s.dirty.gen && (u in s.flushers ==> 1 <= s.flushers[u].gen)
    && (forall j :: 0 <= j < |s.dirty.slots| && s.dirty.slots[j].stamp != 0 && s.dirty.slots[j].cell == c
                    ==> && s.dirty.slots[j].stamp < s.dirty.gen
                        && (u in s.flushers ==> s.dirty.slots[j].stamp != s.flushers[u].gen))
    && (forall k :: base <= k < |s.trail| ==> s.trail[k] != Claim(s.trail[k].gen, c))
  }

  /** The flush's own step, or a mark of another cell. */
  predicate OwnOrOther(ev: Event, u: Tid, c: Cell) { if ev.MarkCell? then ev.c != c else ev.t == u }

  lemma StepOlder(h: Hash, s: Core, ev: Event, u: Tid, c: Cell, base: nat)
    requires Sized(s) && Older(s, u, c, base) && Step(h, s, ev).Some? && !Wraps(s, ev) && OwnOrOther(ev, u, c)
    ensures Older(Step(h, s, ev).value, u, c, base)
  {
    hide E.Bump;
    StepSized(h, s, ev);
  }

  lemma {:induction false} RunOlder(h: Hash, s: Core, evs: seq<Event>, u: Tid, c: Cell, base: nat)
    requires Sized(s) && Older(s, u, c, base) && AnyRun(h, s, evs).Some?
    requires forall ev :: ev in evs ==> OwnOrOther(ev, u, c)
    ensures Older(AnyRun(h, s, evs).value, u, c, base)
    decreases |evs|
  {
    hide Step, Wraps, Older, OwnOrOther;
    if evs != [] {
      assert evs[0] in evs;
      StepSized(h, s, evs[0]);
      StepOlder(h, s, evs[0], u, c, base);
      RunOlder(h, Step(h, s, evs[0]).value, evs[1..], u, c, base);
    }
  }

  /** So when no other flush moves and the cell is not marked again, the end of the next flush finds the
      cell served at all if and only if it held a slot of the open generation when the flush began. */
  lemma AloneServesExactly(h: Hash, s: Core, u: Tid, after: seq<Event>, c: Cell)
    requires Fair(s) && u !in s.flushers && !Wraps(s, Begin(u))
    requires var s' := Step(h, s, Begin(u)).value;
             Sized(s') && AnyRun(h, s', after).Some? && Completes(h, s', after, u)
    requires forall ev :: ev in after ==> OwnOrOther(ev, u, c)
    ensures Served(AnyRun(h, Step(h, s, Begin(u)).value, after).value, c, |s.trail|) <==> Open(s, c)
  {
    hide AnyRun, Completes, Chain, OwnOrOther, GensOk;
    var s' := Step(h, s, Begin(u)).value;
    FlushServesExactly(h, s, u, after, c, |s.trail|);
    if !Open(s, c) {
      forall j | 0 <= j < |s.dirty.slots| && s.dirty.slots[j].cell == c ensures s.dirty.slots[j].stamp < s.dirty.gen {
        assert StampFair(s, j) && s.dirty.slots[j] != DirtySlot(c, s.dirty.gen);
      }
      RunOlder(h, s', after, u, c, |s.trail|);
      OlderUnserved(AnyRun(h, s', after).value, u, c, |s.trail|);
    }
  }

  lemma OlderUnserved(s: Core, u: Tid, c: Cell, base: nat)
    requires Older(s, u, c, base)
    ensures !Served(s, c, base)
  {
  }

  // -------------------------------------------------------------------------------------
  // Marks
  // -------------------------------------------------------------------------------------

  /** A mark opens its cell's generation exactly when the slot it lands on is empty. */
  lemma MarkOpensExactly(h: Hash, s: Core, c: Cell)
    requires Sized(s)
    ensures var i := Find(h, TagsOf(s.dirty.slots), c);
            Open(s.(dirty := Mark(h, s.dirty, c)), c)
            <==> Open(s, c) || (i.Some? && s.dirty.slots[i.value].stamp == 0)
  {
    var s' := s.(dirty := Mark(h, s.dirty, c));
    var i := Find(h, TagsOf(s.dirty.slots), c);
    if i.Some? && s.dirty.slots[i.value].stamp == 0 {
      assert s'.dirty.slots[i.value] == DirtySlot(c, s.dirty.gen);
    } else {
      assert s'.dirty.slots == s.dirty.slots && s'.dirty.gen == s.dirty.gen;
    }
  }

  /** The mark lands on a stranded slot. */
  ghost predicate Swallowed(h: Hash, s: Core, c: Cell)
    requires Sized(s)
  {
    var i := Find(h, TagsOf(s.dirty.slots), c);
    i.Some? && Stranded(s, i.value)
  }

  /** A mark that lands on a stranded slot changes nothing. Any other mark that is not counted as overflow
      leaves the cell in a slot of the open generation or in one still ahead of a running flush. */
  lemma MarkLeaves(h: Hash, s: Core, c: Cell)
    requires Fair(s) && Mark(h, s.dirty, c).dropped == s.dirty.dropped
    ensures var s' := s.(dirty := Mark(h, s.dirty, c));
            if Swallowed(h, s, c) then s' == s
            else Open(s', c) || exists t :: t in s.flushers && AheadOf(s', t, c)
  {
    hide GensOk;
    var s' := s.(dirty := Mark(h, s.dirty, c));
    var j := Find(h, TagsOf(s.dirty.slots), c).value;
    assert StampFair(s, j);
    if s.dirty.slots[j].stamp == 0 || s.dirty.slots[j].stamp == s.dirty.gen {
      assert s'.dirty.slots[j].stamp == s.dirty.gen && (s'.dirty.slots[j].cell == c);
      assert !Stranded(s, j);
    } else if !Stranded(s, j) {
      var t :| t in s.flushers && s.flushers[t].gen == s.dirty.slots[j].stamp;
      assert s'.dirty.slots[j] == DirtySlot(c, s.flushers[t].gen);
      assert AheadOf(s', t, c);
    }
  }

  lemma {:induction false} AnyAppend(h: Hash, s: Core, a: seq<Event>, b: seq<Event>)
    requires Sized(s) && AnyRun(h, s, a).Some?
    ensures Sized(AnyRun(h, s, a).value) && AnyRun(h, s, a + b) == AnyRun(h, AnyRun(h, s, a).value, b)
    decreases |a|
  {
    hide Step, Wraps;
    if a == [] {
      assert a + b == b;
    } else {
      assert (a + b)[1..] == a[1..] + b;
      StepSized(h, s, a[0]);
      AnyAppend(h, Step(h, s, a[0]).value, a[1..], b);
    }
  }

  lemma {:induction false} OpenStays(h: Hash, s: Core, evs: seq<Event>, c: Cell)
    requires Fair(s) && AnyRun(h, s, evs).Some? && Open(s, c) && forall ev :: ev in evs ==> !ev.Begin?
    ensures Open(AnyRun(h, s, evs).value, c) && |s.trail| <= |AnyRun(h, s, evs).value.trail|
    decreases |evs|
  {
    hide Step, Wraps, Fair, Open;
    FairSized(s);
    if evs != [] {
      assert evs[0] in evs;
      StepSized(h, s, evs[0]);
      StepFair(h, s, evs[0]);
      StepOpen(h, s, evs[0], c);
      OpenStays(h, Step(h, s, evs[0]).value, evs[1..], c);
    }
  }

  /** After the events `before`, in which no flush begins, flush `u` begins, and `after` takes it to its
      end. */
  ghost predicate NextFlush(h: Hash, s: Core, before: seq<Event>, u: Tid, after: seq<Event>)
    requires Sized(s)
  {
    && (forall ev :: ev in before ==> !ev.Begin?)
    && var b := AnyRun(h, s, before);
       && b.Some? && Sized(b.value) && u !in b.value.flushers && !Wraps(b.value, Begin(u))
       && var s' := Step(h, b.value, Begin(u)).value;
          Sized(s') && AnyRun(h, s', after).Some? && Completes(h, s', after, u)
  }

  /** The state it ends in. */
  ghost function NextEnd(h: Hash, s: Core, before: seq<Event>, u: Tid, after: seq<Event>): Core
    requires Sized(s) && NextFlush(h, s, before, u, after)
  {
    AnyRun(h, Step(h, AnyRun(h, s, before).value, Begin(u)).value, after).value
  }

  lemma NextIsRun(h: Hash, s: Core, before: seq<Event>, u: Tid, after: seq<Event>)
    requires Sized(s) && NextFlush(h, s, before, u, after)
    ensures AnyRun(h, s, before + ([Begin(u)] + after)) == Some(NextEnd(h, s, before, u, after))
  {
    hide Completes;
    AnyAppend(h, s, before, [Begin(u)] + after);
    AnyStep(h, AnyRun(h, s, before).value, Begin(u), after);
  }

  /** No lost mark, with any number of overlapping flushes and after any history, early returns included:
      a mark that is neither counted as overflow nor swallowed by a stranded slot is followed by a claim
      of its cell, an epoch bump and a publish attempt, all of them after the mark, once the flushes
      running at the mark and the next one to begin have completed, however marks and other flushes,
      failing ones included, interleave the slot-by-slot drains. */
  lemma NoMarkLost(h: Hash, n: nat, history: seq<Event>, c: Cell, before: seq<Event>, u: Tid, after: seq<Event>)
    requires 0 < n && AnyRun(h, Init(n), history).Some?
    requires var s := AnyRun(h, Init(n), history).value;
             Sized(s) && Mark(h, s.dirty, c).dropped == s.dirty.dropped && !Swallowed(h, s, c)
    requires var s := AnyRun(h, Init(n), history).value;
             var marked := s.(dirty := Mark(h, s.dirty, c));
             && Sized(marked) && NextFlush(h, marked, before, u, after)
             && AnyRun(h, marked, before + ([Begin(u)] + after)).Some?
             && forall t :: t in s.flushers ==> Completes(h, marked, before + ([Begin(u)] + after), t)
    ensures var s := AnyRun(h, Init(n), history).value;
            var marked := s.(dirty := Mark(h, s.dirty, c));
            Served(NextEnd(h, marked, before, u, after), c, |s.trail|)
  {
    hide AnyRun, Completes, Swallowed, AheadOf, ServedBy, Open, Fair;
    var s := AnyRun(h, Init(n), history).value;
    InitFair(n);
    AnyRunFair(h, Init(n), history);
    var marked := s.(dirty := Mark(h, s.dirty, c));
    MarkIsFair(h, s, c);
    MarkLeaves(h, s, c);
    if Open(marked, c) {
      OpenIsServed(h, marked, before, u, after, c, |s.trail|);
    } else {
      var t :| t in s.flushers && AheadOf(marked, t, c);
      NextIsRun(h, marked, before, u, after);
      assert t in marked.flushers;
      TakenIsServed(h, marked, before + ([Begin(u)] + after), t, marked.flushers[t].gen, c, |s.trail|);
    }
  }

  lemma MarkIsFair(h: Hash, s: Core, c: Cell)
    requires Fair(s)
    ensures Fair(s.(dirty := Mark(h, s.dirty, c)))
  {
    hide Fair;
    FairSized(s);
    StepFair(h, s, MarkCell(c));
  }

  lemma OpenIsServed(h: Hash, s: Core, before: seq<Event>, u: Tid, after: seq<Event>, c: Cell, base: nat)
    requires Fair(s) && NextFlush(h, s, before, u, after) && Open(s, c) && base <= |s.trail|
    ensures ServedBy(NextEnd(h, s, before, u, after), AnyRun(h, s, before).value.dirty.gen, c, base)
  {
    hide AnyRun, Completes, ServedBy, Open, Fair, AheadOf;
    FairSized(s);
    var b := AnyRun(h, s, before).value;
    AnyRunFair(h, s, before);
    OpenStays(h, s, before, c);
    StepFair(h, b, Begin(u));
    StepOpen(h, b, Begin(u), c);
    TakenIsServed(h, Step(h, b, Begin(u)).value, after, u, b.dirty.gen, c, base);
  }

  // -------------------------------------------------------------------------------------
  // The next flush
  // -------------------------------------------------------------------------------------

  /** While no flush begins and the cell is not marked again, its generation stays as open as it was, and
      claims are those of older generations. */
  lemma {:induction false} BeforeBegin(h: Hash, s: Core, evs: seq<Event>, c: Cell, base: nat)
    requires Fair(s) && AnyRun(h, s, evs).Some? && base <= |s.trail|
    requires forall ev :: ev in evs ==> !ev.Begin? && ev != MarkCell(c)
    requires forall k :: base <= k < |s.trail| ==> s.trail[k] != Claim(s.dirty.gen, c)
    ensures var s' := AnyRun(h, s, evs).value;
            && s'.dirty.gen == s.dirty.gen && base <= |s'.trail| && (Open(s', c) <==> Open(s, c))
            && (forall k :: base <= k < |s'.trail| ==> s'.trail[k] != Claim(s.dirty.gen, c))
    decreases |evs|
  {
    hide Step, Wraps, Fair, Open;
    FairSized(s);
    if evs != [] {
      assert evs[0] in evs;
      StepSized(h, s, evs[0]);
      StepFair(h, s, evs[0]);
      StepBefore(h, s, evs[0], c, base);
      BeforeBegin(h, Step(h, s, evs[0]).value, evs[1..], c, base);
    }
  }

  lemma StepBefore(h: Hash, s: Core, ev: Event, c: Cell, base: nat)
    requires Fair(s) && Step(h, s, ev).Some? && !ev.Begin? && ev != MarkCell(c) && base <= |s.trail|
    requires forall k :: base <= k < |s.trail| ==> s.trail[k] != Claim(s.dirty.gen, c)
    ensures var s' := Step(h, s, ev).value;
            && s'.dirty.gen == s.dirty.gen && base <= |s'.trail| && (Open(s', c) <==> Open(s, c))
            && (forall k :: base <= k < |s'.trail| ==> s'.trail[k] != Claim(s.dirty.gen, c))
  {
    hide E.Bump, StampFair;
    StepSized(h, s, ev);
    var s' := Step(h, s, ev).value;
    forall j | 0 <= j < |s.dirty.slots|
      ensures s'.dirty.slots[j] == DirtySlot(c, s.dirty.gen) <==> s.dirty.slots[j] == DirtySlot(c, s.dirty.gen) {}
  }

  /** When the next flush serves a mark, exactly: after any history, with no second mark of the cell before
      the flush begins, the next flush to begin claims, bumps and offers the cell after the mark if and
      only if the mark left it in a slot of the open generation, that is, if it already had one or the
      mark took an empty one. A mark that touches a slot of an older flush waits for that one. */
  lemma NextFlushServesExactly(h: Hash, n: nat, history: seq<Event>, c: Cell, before: seq<Event>, u: Tid,
                               after: seq<Event>)
    requires 0 < n && AnyRun(h, Init(n), history).Some? && Sized(AnyRun(h, Init(n), history).value)
    requires var s := AnyRun(h, Init(n), history).value;
             var marked := s.(dirty := Mark(h, s.dirty, c));
             Sized(marked) && NextFlush(h, marked, before, u, after) && MarkCell(c) !in before
    ensures var s := AnyRun(h, Init(n), history).value;
            var marked := s.(dirty := Mark(h, s.dirty, c));
            var i := Find(h, TagsOf(s.dirty.slots), c);
            ServedBy(NextEnd(h, marked, before, u, after), marked.dirty.gen, c, |s.trail|)
            <==> Open(s, c) || (i.Some? && s.dirty.slots[i.value].stamp == 0)
  {
    hide AnyRun, Completes, ServedBy, Open, Fair;
    var s := AnyRun(h, Init(n), history).value;
    InitFair(n);
    AnyRunFair(h, Init(n), history);
    var marked := s.(dirty := Mark(h, s.dirty, c));
    MarkIsFair(h, s, c);
    MarkOpensExactly(h, s, c);
    BeforeBegin(h, marked, before, c, |s.trail|);
    AnyRunFair(h, marked, before);
    FlushServesExactly(h, AnyRun(h, marked, before).value, u, after, c, |s.trail|);
  }

  // -------------------------------------------------------------------------------------
  // Flushes that do not overlap
  // -------------------------------------------------------------------------------------

  /** A flush only begins when none is running. */
  ghost predicate Serial(h: Hash, s: Core, evs: seq<Event>)
    requires Sized(s) && AnyRun(h, s, evs).Some?
    decreases |evs|
  {
    evs == [] || ((evs[0].Begin? ==> forall t :: t !in s.flushers)
                  && (StepSized(h, s, evs[0]); Serial(h, Step(h, s, evs[0]).value, evs[1..])))
  }

  /** No flush returns early. */
  ghost predicate NoFailure(h: Hash, s: Core, evs: seq<Event>)
    requires Sized(s) && AnyRun(h, s, evs).Some?
    decreases |evs|
  {
    evs == [] || (!ReturnsEarly(h, s, evs[0])
                  && (StepSized(h, s, evs[0]); NoFailure(h, Step(h, s, evs[0]).value, evs[1..])))
  }

  /** A flush that does not return early is over by its end and nothing else. */
  lemma {:induction false} EndsFirst(h: Hash, s: Core, before: seq<Event>, u: Tid, after: seq<Event>, t: Tid)
    requires Sized(s) && AnyRun(h, s, before + ([Begin(u)] + after)).Some? && t in s.flushers
    requires (forall ev :: ev in before ==> !ev.Begin?) && Serial(h, s, before + ([Begin(u)] + after))
    requires NoFailure(h, s, before + ([Begin(u)] + after))
    ensures Completes(h, s, before + ([Begin(u)] + after), t)
    decreases |before|
  {
    hide E.Bump;
    var evs := before + ([Begin(u)] + after);
    if before != [] {
      assert evs[1..] == before[1..] + ([Begin(u)] + after) && evs[0] == before[0];
      StepSized(h, s, evs[0]);
      if evs[0] != End(t) { EndsFirst(h, Step(h, s, evs[0]).value, before[1..], u, after, t); }
    }
  }

  /** When flushes do not overlap, the end of the next flush to begin is enough. */
  lemma NextFlushServes(h: Hash, n: nat, history: seq<Event>, c: Cell, before: seq<Event>, u: Tid, after: seq<Event>)
    requires 0 < n && AnyRun(h, Init(n), history).Some?
    requires var s := AnyRun(h, Init(n), history).value;
             Sized(s) && Mark(h, s.dirty, c).dropped == s.dirty.dropped && !Swallowed(h, s, c)
    requires var s := AnyRun(h, Init(n), history).value;
             var marked := s.(dirty := Mark(h, s.dirty, c));
             var evs := before + ([Begin(u)] + after);
             && Sized(marked) && NextFlush(h, marked, before, u, after)
             && AnyRun(h, marked, evs).Some? && Serial(h, marked, evs) && NoFailure(h, marked, evs)
    ensures var s := AnyRun(h, Init(n), history).value;
            var marked := s.(dirty := Mark(h, s.dirty, c));
            Served(NextEnd(h, marked, before, u, after), c, |s.trail|)
  {
    hide AnyRun, Serial, NoFailure, Served, Swallowed, Completes;
    var s := AnyRun(h, Init(n), history).value;
    var marked := s.(dirty := Mark(h, s.dirty, c));
    forall t | t in s.flushers ensures Completes(h, marked, before + ([Begin(u)] + after), t) {
      EndsFirst(h, marked, before, u, after, t);
    }
    NoMarkLost(h, n, history, c, before, u, after);
  }

  // -------------------------------------------------------------------------------------
  // A mark that outlives the next flush
  // -------------------------------------------------------------------------------------

  /** The flush looks at `k` slots. */
  function Scans(u: Tid, k: nat): seq<Event> { if k == 0 then [End(u)] else [Scan(u)] + Scans(u, k - 1) }

  lemma {:induction false} IdleScans(h: Hash, s: Core, u: Tid, k: nat)
    requires Sized(s) && u in s.flushers && s.flushers[u].Draining? && s.flushers[u].i + k == |s.dirty.slots|
    requires forall j :: 0 <= j < |s.dirty.slots| ==> s.dirty.slots[j].stamp != s.flushers[u].gen
    ensures AnyRun(h, s, Scans(u, k)) == Some(Leave(s, u)) && Completes(h, s, Scans(u, k), u)
    decreases k
  {
    hide E.Bump;
    if k == 0 {
      AnyStep(h, s, End(u), []);
    } else {
      var s' := Step(h, s, Scan(u)).value;
      AnyStep(h, s, Scan(u), Scans(u, k - 1));
      IdleScans(h, s', u, k - 1);
      assert Leave(s', u) == Leave(s, u);
      assert Scans(u, k)[1..] == Scans(u, k - 1);
    }
  }

  lemma OwnScans(u: Tid, k: nat, c: Cell)
    ensures forall ev :: ev in Scans(u, k) ==> OwnOrOther(ev, u, c)
  {
  }

  /** With a table of any size, a flush has begun and not reached a marked cell; the cell is marked again.
      A newer flush then runs from beginning to end, and the mark is not served. */
  lemma OverlapOutlives(h: Hash, n: nat, c: Cell)
    requires 0 < n
    ensures var s := AnyRun(h, Init(n), [MarkCell(c)] + ([Begin(1)] + []));
            && s.Some? && Sized(s.value) && Fair(s.value) && Mark(h, s.value.dirty, c) == s.value.dirty
            && NextFlush(h, s.value, [], 2, Scans(2, n))
            && !Served(NextEnd(h, s.value, [], 2, Scans(2, n)), c, 0)
            && 1 in NextEnd(h, s.value, [], 2, Scans(2, n)).flushers
  {
    hide AnyRun, E.Bump, Fair, Served, Scans, Completes;
    var s0 := Init(n);
    var home := Home(h, n, c);
    assert TagsOf(s0.dirty.slots)[Circular.At(n, home, 0)] == None;
    var s1 := Step(h, s0, MarkCell(c)).value;
    assert s1.dirty.slots[home] == DirtySlot(c, 1);
    var s2 := Step(h, s1, Begin(1)).value;
    AnyStep(h, s0, MarkCell(c), [Begin(1)] + []);
    AnyStep(h, s1, Begin(1), []);
    AnyNone(h, s2);
    assert TagsOf(s2.dirty.slots)[Circular.At(n, home, 0)] == Some(c);
    InitFair(n);
    StepFair(h, s0, MarkCell(c));
    StepFair(h, s1, Begin(1));
    AnyNone(h, s2);
    var s3 := Step(h, s2, Begin(2)).value;
    IdleScans(h, s3, 2, n);
    OwnScans(2, n, c);
    AloneServesExactly(h, s2, 2, Scans(2, n), c);
  }
}
