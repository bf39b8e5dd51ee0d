/** The gateway cache against the handlers' actor table: what a snapshot reads, and what a cached cell
    lists once nothing is in flight. */
module CacheMirror {
  import opened Prelude
  import opened Spatial
  import opened Coherence

  // -------------------------------------------------------------------------------------
  // Snapshots
  // -------------------------------------------------------------------------------------

  /** A good re-snapshot of a tracked cell takes it off the drained products and makes the entry list the
      cell's artifacts as they are. */
  lemma RefreshReads(s: State, c: Cell)
    requires DoRefresh(s, c, true).Some? && c in s.cache
    ensures var s' := DoRefresh(s, c, true).value;
            c in s'.cache && Fresh(s', c) && s'.drained == s.drained - {c} && s'.cache - {c} == s.cache - {c}
  {
  }

  lemma FirstSnapshotReads(s: State, t: Tid)
    requires DoSubscribeSnapshot(s, t, true).Some?
    ensures var s', c := DoSubscribeSnapshot(s, t, true).value, s.workers[t].cell;
            c in s'.cache && Fresh(s', c) && t !in s'.workers && s'.cache - {c} == s.cache - {c}
  {
  }

  /** Further interest re-reads an empty entry and leaves any other as it is. */
  lemma ResubscribeReads(s: State, c: Cell)
    requires DoResubscribe(s, c, true).Some?
    ensures var s' := DoResubscribe(s, c, true).value;
            && c in s'.cache && (if s.cache[c] == map[] then Fresh(s', c) else s'.cache[c] == s.cache[c])
            && s'.cache - {c} == s.cache - {c}
  {
  }

  /** Eviction removes the entry and its pending flag, and nothing else. */
  lemma UnsubscribeEvicts(s: State, c: Cell)
    requires DoUnsubscribe(s, c).Some?
    ensures var s' := DoUnsubscribe(s, c).value;
            c !in s'.cache && c !in s'.pending && s'.cache == s.cache - {c} && s'.pending == s.pending - {c}
  {
  }

  // -------------------------------------------------------------------------------------
  // The artifact store against the actor table
  // -------------------------------------------------------------------------------------

  /** The actor's one artifact is its stored state, in the cell of its stored position. */
  ghost predicate Same(w: World, s: State, a: ActorId)
    requires 0 < w.cellSize
  {
    && (a in s.store <==> a in s.actors)
    && (a in s.actors && a in s.store ==> s.store[a].actor == s.actors[a] && s.store[a].cell == CellOf(w, s.actors[a]))
  }

  /** Some worker has stored a state of the actor and not published it yet. */
  ghost predicate MidStore(s: State, a: ActorId) { exists t :: t in s.workers && s.workers[t] == Stored(a) }

  /** The actors whose last publish was refused, one event further. */
  ghost function RefusedAfter(s: State, refused: set<ActorId>, ev: Event): set<ActorId> {
    if ev.PublishArtifact? && ev.t in s.workers && s.workers[ev.t].Stored? then
      if ev.ok then refused - {s.workers[ev.t].a} else refused + {s.workers[ev.t].a}
    else refused
  }

  ghost function RefusedBy(w: World, s: State, evs: seq<Event>, refused: set<ActorId>): set<ActorId>
    requires 0 < w.cellSize && Run(w, s, evs).Some?
    decreases |evs|
  {
    if evs == [] then refused else RefusedBy(w, Step(w, s, evs[0]).value, evs[1..], RefusedAfter(s, refused, evs[0]))
  }

  predicate WorkerEvent(ev: Event) { ev.Acquire? || ev.RecordCell? || ev.Mark? || ev.Release? || ev.ChatMark? }

  predicate FlushEvent(ev: Event) { ev.FlushBegin? || ev.Bump? || ev.Offer? || ev.FlushEnd? }

  /** The step leaves the table, the store and every worker that has stored alone. */
  ghost predicate Aside(s: State, s': State) {
    && s'.actors == s.actors && s'.store == s.store
    && forall u :: u in s.workers && s.workers[u].Stored? ==> u in s'.workers && s'.workers[u] == s.workers[u]
  }

  lemma WorkersAside(w: World, s: State, ev: Event)
    requires 0 < w.cellSize && Step(w, s, ev).Some? && WorkerEvent(ev)
    ensures Aside(s, Step(w, s, ev).value) && Step(w, s, ev).value.epochs == s.epochs
  {
    hide CellOf, Elements, Lookup, StripeOf;
  }

  lemma BeginAside(s: State, t: Tid, order: seq<Cell>)
    requires DoFlushBegin(s, t, order).Some?
    ensures Aside(s, DoFlushBegin(s, t, order).value) && DoFlushBegin(s, t, order).value.epochs == s.epochs
  {
    hide CellSet, Distinct;
  }

  lemma BumpAside(s: State, t: Tid)
    requires DoBump(s, t).Some?
    ensures Aside(s, DoBump(s, t).value)
  {
    hide EpochOf;
  }

  lemma OfferAside(s: State, t: Tid, outcome: Outcome)
    requires DoOffer(s, t, outcome).Some?
    ensures Aside(s, DoOffer(s, t, outcome).value) && DoOffer(s, t, outcome).value.epochs == s.epochs
  {
    hide Accepts;
  }

  lemma FlushesAside(w: World, s: State, ev: Event)
    requires 0 < w.cellSize && Step(w, s, ev).Some? && FlushEvent(ev)
    ensures Aside(s, Step(w, s, ev).value) && (!ev.Bump? ==> Step(w, s, ev).value.epochs == s.epochs)
  {
    hide DoFlushBegin, DoBump, DoOffer;
    match ev
    case FlushBegin(t, order) => BeginAside(s, t, order);
    case Bump(t) => BumpAside(s, t);
    case Offer(t, outcome) => OfferAside(s, t, outcome);
    case FlushEnd(_) =>
  }

  lemma GatewayAside(w: World, s: State, ev: Event)
    requires 0 < w.cellSize && Step(w, s, ev).Some?
    requires !ev.Apply? && !ev.PublishArtifact? && !WorkerEvent(ev) && !FlushEvent(ev)
    ensures Aside(s, Step(w, s, ev).value) && Step(w, s, ev).value.epochs == s.epochs
  {
    hide Contents, BeingSubscribed;
  }

  lemma OthersKeep(w: World, s: State, ev: Event, a: ActorId)
    requires 0 < w.cellSize && Step(w, s, ev).Some? && !ev.Apply? && !ev.PublishArtifact?
    requires Same(w, s, a) || MidStore(s, a)
    ensures Same(w, Step(w, s, ev).value, a) || MidStore(Step(w, s, ev).value, a)
  {
    hide Step;
    if WorkerEvent(ev) {
      WorkersAside(w, s, ev);
    } else if FlushEvent(ev) {
      FlushesAside(w, s, ev);
    } else {
      GatewayAside(w, s, ev);
    }
  }

  lemma ApplyKeeps(w: World, s: State, ev: Event, a: ActorId)
    requires 0 < w.cellSize && Step(w, s, ev).Some? && ev.Apply?
    requires Same(w, s, a) || MidStore(s, a)
    ensures Same(w, Step(w, s, ev).value, a) || MidStore(Step(w, s, ev).value, a)
  {
    hide CellOf;
    var s' := Step(w, s, ev).value;
    if s.workers[ev.t].a == a {
      assert s'.workers[ev.t] == Stored(a);
    } else if MidStore(s, a) {
      var u :| u in s.workers && s.workers[u] == Stored(a);
      assert u in s'.workers && s'.workers[u] == Stored(a);
    }
  }

  lemma PublishKeeps(w: World, s: State, ev: Event, refused: set<ActorId>, a: ActorId)
    requires 0 < w.cellSize && Step(w, s, ev).Some? && ev.PublishArtifact?
    requires a !in refused ==> Same(w, s, a) || MidStore(s, a)
    requires a !in RefusedAfter(s, refused, ev)
    ensures Same(w, Step(w, s, ev).value, a) || MidStore(Step(w, s, ev).value, a)
  {
    var s' := Step(w, s, ev).value;
    if s.workers[ev.t].a != a && MidStore(s, a) {
      var u :| u in s.workers && s.workers[u] == Stored(a);
      assert u in s'.workers && s'.workers[u] == Stored(a);
    }
    hide CellOf;
  }

  lemma {:induction false} RunSame(w: World, s: State, evs: seq<Event>, refused: set<ActorId>, a: ActorId)
    requires 0 < w.cellSize && Run(w, s, evs).Some? && a !in RefusedBy(w, s, evs, refused)
    requires a !in refused ==> Same(w, s, a) || MidStore(s, a)
    ensures Same(w, Run(w, s, evs).value, a) || MidStore(Run(w, s, evs).value, a)
    decreases |evs|
  {
    hide Step, Same, MidStore;
    if evs != [] {
      var refused' := RefusedAfter(s, refused, evs[0]);
      if a !in refused' {
        if evs[0].PublishArtifact? {
          PublishKeeps(w, s, evs[0], refused, a);
        } else if evs[0].Apply? {
          ApplyKeeps(w, s, evs[0], a);
        } else {
          OthersKeep(w, s, evs[0], a);
        }
      }
      RunSame(w, Step(w, s, evs[0]).value, evs[1..], refused', a);
    }
  }

  // -------------------------------------------------------------------------------------
  // Epochs
  // -------------------------------------------------------------------------------------

  /** How many flush sections of the run allocated an epoch for the cell. */
  ghost function Bumps(w: World, s: State, evs: seq<Event>, c: Cell): nat
    requires 0 < w.cellSize && Run(w, s, evs).Some?
    decreases |evs|
  {
    if evs == [] then 0
    else
      (if evs[0].Bump? && evs[0].t in s.workers && s.workers[evs[0].t].Flushing? && s.workers[evs[0].t].todo != []
          && s.workers[evs[0].t].todo[0] == c then 1 else 0)
      + Bumps(w, Step(w, s, evs[0]).value, evs[1..], c)
  }

  lemma StepEpoch(w: World, s: State, ev: Event, c: Cell)
    requires 0 < w.cellSize && Step(w, s, ev).Some?
    ensures EpochOf(Step(w, s, ev).value.epochs, c)
            == EpochOf(s.epochs, c) + if ev.Bump? && s.workers[ev.t].todo[0] == c then 1 else 0
  {
    if !ev.Bump? {
      EpochsStay(w, s, ev);
      hide Step;
    }
  }

  lemma EpochsStay(w: World, s: State, ev: Event)
    requires 0 < w.cellSize && Step(w, s, ev).Some? && !ev.Bump?
    ensures Step(w, s, ev).value.epochs == s.epochs
  {
    if !ev.Apply? && !ev.PublishArtifact? {
      hide Step;
      if WorkerEvent(ev) {
        WorkersAside(w, s, ev);
      } else if FlushEvent(ev) {
        FlushesAside(w, s, ev);
      } else {
        GatewayAside(w, s, ev);
      }
    }
  }

  /** Epochs count: whatever interleaves, a cell's last allocated epoch is how often flushes allocated one for
      it, so they are handed out as 1, 2, 3, without gap or repetition. */
  lemma {:induction false} EpochsCount(w: World, s: State, evs: seq<Event>, c: Cell)
    requires 0 < w.cellSize && Run(w, s, evs).Some?
    ensures EpochOf(Run(w, s, evs).value.epochs, c) == EpochOf(s.epochs, c) + Bumps(w, s, evs, c)
    decreases |evs|
  {
    if evs != [] {
      StepEpoch(w, s, evs[0], c);
      if evs[0].Bump? { BumpNeeds(w, s, evs[0]); }
      hide Step;
      EpochsCount(w, Step(w, s, evs[0]).value, evs[1..], c);
    }
  }

  lemma BumpNeeds(w: World, s: State, ev: Event)
    requires 0 < w.cellSize && Step(w, s, ev).Some? && ev.Bump?
    ensures ev.t in s.workers && s.workers[ev.t].Flushing? && s.workers[ev.t].todo != []
  {
  }

  // -------------------------------------------------------------------------------------
  // The cache against the actor table
  // -------------------------------------------------------------------------------------

  /** The entry lists the actor exactly when its stored position lies in the cell, and as it is stored. */
  ghost predicate Lists(w: World, s: State, c: Cell, a: ActorId)
    requires 0 < w.cellSize && c in s.cache
  {
    && (a in s.cache[c] <==> a in s.actors && CellOf(w, s.actors[a]) == c)
    && (a in s.cache[c] && a in s.actors ==> s.cache[c][a] == s.actors[a])
  }

  /** For every run, faults included: once nothing is in flight, every cached cell the run has not lost lists
      exactly the actors whose position is in it, each with the state the handlers hold, but for those whose
      last publish was refused. */
  lemma QuiescentListsActors(w: World, evs: seq<Event>, c: Cell, a: ActorId)
    requires 0 < w.cellSize && Run(w, INIT, evs).Some?
    requires Quiescent(Run(w, INIT, evs).value) && c in Run(w, INIT, evs).value.cache
    requires c !in LostBy(w, INIT, evs, {}) && a !in RefusedBy(w, INIT, evs, {})
    ensures Lists(w, Run(w, INIT, evs).value, c, a)
  {
    hide Run, LostBy, RefusedBy, CellOf;
    QuiescentIsFreshButLost(w, evs, c);
    RunSame(w, INIT, evs, {}, a);
  }

  /** No fault and no refused artifact. */
  predicate Clean(ev: Event) { FaultFree(ev) && (ev.PublishArtifact? ==> ev.ok) }

  lemma {:induction false} CleanRefusesNone(w: World, s: State, evs: seq<Event>)
    requires 0 < w.cellSize && Run(w, s, evs).Some? && forall ev :: ev in evs ==> Clean(ev)
    ensures RefusedBy(w, s, evs, {}) == {}
    decreases |evs|
  {
    hide Step, FaultFree;
    if evs != [] {
      assert Clean(evs[0]) && RefusedAfter(s, {}, evs[0]) == {};
      CleanRefusesNone(w, Step(w, s, evs[0]).value, evs[1..]);
    }
  }

  /** After any clean run, one uncontended flush and one gateway pass make every cached cell list exactly the
      actors whose position is in it, each with the state the handlers hold. */
  lemma OneTickListsActors(w: World, evs: seq<Event>, t: Tid, order: seq<Cell>, batch: seq<Cell>, c: Cell, a: ActorId)
    requires 0 < w.cellSize && Run(w, INIT, evs).Some? && forall ev :: ev in evs ==> Clean(ev)
    requires var s := Run(w, INIT, evs).value;
             && s.workers == map[] && s.drained == {} && c in s.cache
             && Distinct(order) && CellSet(order) == s.dirty
             && Distinct(batch) && CellSet(batch) == s.pending + (s.dirty * s.cache.Keys)
    ensures var r := Run(w, INIT, evs + TickRun(t, order, batch));
            r.Some? && c in r.value.cache && Lists(w, r.value, c, a)
  {
    hide Run, LostBy, RefusedBy, FaultFree, Lists;
    var all := evs + TickRun(t, order, batch);
    assert forall ev :: ev in evs ==> Clean(ev) && FaultFree(ev);
    OneTickConverges(w, evs, t, order, batch);
    TickFaultFree(t, order, batch);
    TickPublishesNothing(t, order, batch);
    assert forall ev :: ev in all ==> FaultFree(ev) && Clean(ev);
    FaultFreeLosesNothing(w, INIT, all);
    CleanRefusesNone(w, INIT, all);
    QuiescentListsActors(w, all, c, a);
  }

  lemma TickPublishesNothing(t: Tid, order: seq<Cell>, batch: seq<Cell>)
    ensures forall ev :: ev in TickRun(t, order, batch) ==> !ev.PublishArtifact?
  {
    FlushPublishesNothing(t, |order|);
    PassPublishesNothing(batch);
  }

  lemma FlushPublishesNothing(t: Tid, n: nat)
    ensures forall ev :: ev in Publishes(t, n) ==> !ev.PublishArtifact?
  {
  }

  lemma PassPublishesNothing(cs: seq<Cell>)
    ensures forall ev :: ev in Refreshes(cs) ==> !ev.PublishArtifact?
  {
  }
}
