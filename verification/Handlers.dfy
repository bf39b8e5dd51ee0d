/** The handler set as an object: one call at a time, each proved to be the uncontended run of the
    step machine in Coherence that interleaves them. */
module Handlers {
  import opened Prelude
  import opened Spatial
  import opened Coherence

  // -------------------------------------------------------------------------------------
  // What a whole call does
  // -------------------------------------------------------------------------------------

  /** Nobody holds a stripe and nobody is between two sections. */
  ghost predicate Uncontended(s: State) { s.workers == map[] && s.stripes == map[] }

  /** Store the actor's new state and publish it: relocate the artifact, note the cell, mark the
      arrival cell and the departed one. */
  function Committed(w: World, s: State, a: ActorId, v: Actor, ok: bool): State
    requires 0 < w.cellSize
  {
    var stored := s.(actors := s.actors[a := v]);
    if !ok then stored
    else
      var c := CellOf(w, v);
      stored.(store := s.store[a := Artifact(c, v)], actorCells := s.actorCells[a := c],
              dirty := s.dirty + {c} + Elements(Lookup(s.actorCells, a)))
  }

  /** The sections of one transaction. */
  function Transaction(t: Tid, a: ActorId, change: Change, ok: bool): seq<Event> {
    [Acquire(t, a)] + ([Apply(t, change)] + ([PublishArtifact(t, ok)] +
      ((if ok then [RecordCell(t)] + [Mark(t)] else []) + [Release(t)])))
  }

  /** The state with worker `t` alone at `pc`, holding the stripe of `a`. */
  function Alone(s: State, t: Tid, a: ActorId, pc: Pc): State {
    s.(workers := map[t := pc], stripes := map[StripeOf(a) := t])
  }

  lemma AcquireRuns(w: World, s: State, t: Tid, a: ActorId, rest: seq<Event>)
    requires 0 < w.cellSize && Uncontended(s)
    ensures Run(w, s, [Acquire(t, a)] + rest) == Run(w, Alone(s, t, a, Holding(a)), rest)
  {
    hide Run;
    RunCons(w, s, Acquire(t, a), rest);
    assert DoAcquire(s, t, a).value == Alone(s, t, a, Holding(a));
  }

  lemma ApplyRuns(w: World, s: State, t: Tid, a: ActorId, change: Change, v: Actor, rest: seq<Event>)
    requires 0 < w.cellSize && Stores(w, s, a, change) == Some(v)
    ensures Run(w, Alone(s, t, a, Holding(a)), [Apply(t, change)] + rest)
            == Run(w, Alone(s.(actors := s.actors[a := v]), t, a, Stored(a)), rest)
  {
    hide Run;
    var s1 := Alone(s, t, a, Holding(a));
    assert NextActor(w, s1, t, change) == Some(v);
    assert s1.workers[t := Stored(a)] == map[t := Stored(a)];
    assert DoStore(s1, t, v) == Some(Alone(s.(actors := s.actors[a := v]), t, a, Stored(a)));
    hide DoStore, Alone, Stores, NextActor;
    RunCons(w, s1, Apply(t, change), rest);
  }

  lemma PublishRuns(w: World, s: State, t: Tid, a: ActorId, ok: bool, rest: seq<Event>)
    requires 0 < w.cellSize && a in s.actors
    ensures var c := CellOf(w, s.actors[a]);
            Run(w, Alone(s, t, a, Stored(a)), [PublishArtifact(t, ok)] + rest)
            == if ok then Run(w, Alone(s.(store := s.store[a := Artifact(c, s.actors[a])]), t, a, Published(a)), rest)
               else Run(w, Alone(s, t, a, Holding(a)), rest)
  {
    hide Run;
    var s1 := Alone(s, t, a, Stored(a));
    var pc := if ok then Published(a) else Holding(a);
    assert s1.workers[t := pc] == map[t := pc];
    RunCons(w, s1, PublishArtifact(t, ok), rest);
  }

  lemma RecordRuns(w: World, s: State, t: Tid, a: ActorId, rest: seq<Event>)
    requires 0 < w.cellSize && a in s.actors
    ensures var c := CellOf(w, s.actors[a]);
            Run(w, Alone(s, t, a, Published(a)), [RecordCell(t)] + rest)
            == Run(w, Alone(s.(actorCells := s.actorCells[a := c]), t, a, Recorded(a, Lookup(s.actorCells, a))), rest)
  {
    hide Run;
    var s1 := Alone(s, t, a, Published(a));
    RunCons(w, s1, RecordCell(t), rest);
    assert DoRecordCell(w, s1, t).value.workers == map[t := Recorded(a, Lookup(s.actorCells, a))];
  }

  lemma MarkRuns(w: World, s: State, t: Tid, a: ActorId, prev: Option<Cell>, rest: seq<Event>)
    requires 0 < w.cellSize
    ensures var dirty := s.dirty + Elements(Lookup(s.actorCells, a)) + Elements(prev);
            Run(w, Alone(s, t, a, Recorded(a, prev)), [Mark(t)] + rest)
            == Run(w, Alone(s.(dirty := dirty), t, a, Holding(a)), rest)
  {
    hide Run;
    var s1 := Alone(s, t, a, Recorded(a, prev));
    RunCons(w, s1, Mark(t), rest);
    assert DoMark(s1, t).value.workers == map[t := Holding(a)];
  }

  lemma ReleaseRuns(w: World, s: State, t: Tid, a: ActorId)
    requires 0 < w.cellSize
    ensures Run(w, Alone(s, t, a, Holding(a)), [Release(t)]) == Some(s.(workers := map[], stripes := map[]))
  {
    hide Run;
    var s1 := Alone(s, t, a, Holding(a));
    RunOne(w, s1, Release(t));
    assert s1.workers - {t} == map[] && s1.stripes - {StripeOf(a)} == map[];
  }

  /** Left alone, the sections of a transaction add up to its commit. */
  lemma TransactionRuns(w: World, s: State, t: Tid, a: ActorId, change: Change, v: Actor, ok: bool)
    requires 0 < w.cellSize && Uncontended(s) && Stores(w, s, a, change) == Some(v)
    ensures Run(w, s, Transaction(t, a, change, ok)) == Some(Committed(w, s, a, v, ok))
  {
    hide Run, Alone, Stores, CellOf;
    var tail := (if ok then [RecordCell(t)] + [Mark(t)] else []) + [Release(t)];
    AcquireRuns(w, s, t, a, [Apply(t, change)] + ([PublishArtifact(t, ok)] + tail));
    ApplyRuns(w, s, t, a, change, v, [PublishArtifact(t, ok)] + tail);
    var s1 := s.(actors := s.actors[a := v]);
    PublishRuns(w, s1, t, a, ok, tail);
    if ok {
      var s2 := s1.(store := s1.store[a := Artifact(CellOf(w, v), v)]);
      var s3 := s2.(actorCells := s2.actorCells[a := CellOf(w, v)]);
      var prev := Lookup(s.actorCells, a);
      var s4 := s3.(dirty := s.dirty + {CellOf(w, v)} + Elements(prev));
      assert tail == [RecordCell(t)] + ([Mark(t)] + [Release(t)]);
      RecordRuns(w, s2, t, a, [Mark(t)] + [Release(t)]);
      MarkRuns(w, s3, t, a, prev, [Release(t)]);
      ReleaseRuns(w, s4, t, a);
    } else {
      assert tail == [Release(t)];
      ReleaseRuns(w, s1, t, a);
    }
  }

  // -------------------------------------------------------------------------------------
  // Flushes
  // -------------------------------------------------------------------------------------

  /** One cell of a flush: allocate the next epoch, offer it to the fabric. */
  function Offered(s: State, c: Cell, outcome: Outcome): State {
    var e := EpochOf(s.epochs, c) + 1;
    var accepted := outcome == Done && Accepts(s, c, e);
    s.(epochs := s.epochs[c := e],
       products := if accepted then s.products[c := e] else s.products,
       pending := if accepted && c in s.cache then s.pending + {c} else s.pending)
  }

  /** The cells in order, up to the first error that is raised. */
  function OfferAll(s: State, order: seq<Cell>, outcomes: seq<Outcome>): State
    requires |outcomes| == |order|
    decreases |order|
  {
    if order == [] then s
    else
      var s1 := Offered(s, order[0], outcomes[0]);
      if outcomes[0] == Raised then s1 else OfferAll(s1, order[1..], outcomes[1..])
  }

  /** The sections of a flush after its snapshot. */
  function FlushSections(t: Tid, outcomes: seq<Outcome>): seq<Event> {
    if outcomes == [] then [FlushEnd(t)]
    else
      [Bump(t)] + ([Offer(t, outcomes[0])] +
        (if outcomes[0] == Raised then [] else FlushSections(t, outcomes[1..])))
  }

  /** The state with flush `t` alone, these cells to go. */
  function Mid(s: State, t: Tid, todo: seq<Cell>): State { s.(workers := map[t := Flushing(todo)]) }

  /** The state with flush `t` alone, one cell bumped. */
  function Offering(s: State, t: Tid, c: Cell, e: nat, todo: seq<Cell>): State {
    s.(epochs := s.epochs[c := e], workers := map[t := Bumped(c, e, todo)])
  }

  lemma BumpStep(s: State, t: Tid, todo: seq<Cell>)
    requires todo != []
    ensures DoBump(Mid(s, t, todo), t) == Some(Offering(s, t, todo[0], EpochOf(s.epochs, todo[0]) + 1, todo[1..]))
  {
    var pc := Bumped(todo[0], EpochOf(s.epochs, todo[0]) + 1, todo[1..]);
    assert Mid(s, t, todo).workers[t := pc] == map[t := pc];
  }

  lemma OfferStep(s: State, t: Tid, c: Cell, e: nat, todo: seq<Cell>, outcome: Outcome)
    requires e == EpochOf(s.epochs, c) + 1
    ensures var s1 := Offered(s, c, outcome);
            DoOffer(Offering(s, t, c, e, todo), t, outcome)
            == Some(if outcome == Raised then s1.(workers := map[]) else Mid(s1, t, todo))
  {
    var s1 := Offering(s, t, c, e, todo);
    assert Accepts(s1, c, e) == Accepts(s, c, e);
    if outcome == Raised {
      assert s1.workers - {t} == map[];
    } else {
      assert s1.workers[t := Flushing(todo)] == map[t := Flushing(todo)];
    }
  }

  lemma OfferRuns(w: World, s: State, t: Tid, todo: seq<Cell>, outcome: Outcome, rest: seq<Event>)
    requires 0 < w.cellSize && todo != []
    ensures var s1 := Offered(s, todo[0], outcome);
            Run(w, Mid(s, t, todo), [Bump(t)] + ([Offer(t, outcome)] + rest))
            == Run(w, if outcome == Raised then s1.(workers := map[]) else Mid(s1, t, todo[1..]), rest)
  {
    hide Run, DoBump, DoOffer, Offered, Mid, Offering;
    var c, e := todo[0], EpochOf(s.epochs, todo[0]) + 1;
    BumpStep(s, t, todo);
    RunCons(w, Mid(s, t, todo), Bump(t), [Offer(t, outcome)] + rest);
    OfferStep(s, t, c, e, todo[1..], outcome);
    RunCons(w, Offering(s, t, c, e, todo[1..]), Offer(t, outcome), rest);
  }

  lemma {:induction false} OfferAllRuns(w: World, s: State, t: Tid, order: seq<Cell>, outcomes: seq<Outcome>)
    requires 0 < w.cellSize && |outcomes| == |order|
    ensures Run(w, Mid(s, t, order), FlushSections(t, outcomes))
            == Some(OfferAll(s, order, outcomes).(workers := map[]))
    decreases |order|
  {
    hide Run, Offered;
    if order == [] {
      RunOne(w, Mid(s, t, []), FlushEnd(t));
      assert Mid(s, t, []).workers - {t} == map[];
    } else {
      var rest := if outcomes[0] == Raised then [] else FlushSections(t, outcomes[1..]);
      OfferRuns(w, s, t, order, outcomes[0], rest);
      var s1 := Offered(s, order[0], outcomes[0]);
      if outcomes[0] == Raised {
        RunNil(w, s1.(workers := map[]));
      } else {
        OfferAllRuns(w, s1, t, order[1..], outcomes[1..]);
      }
    }
  }

  /** Left alone, the sections of a flush add up to its whole effect. */
  lemma FlushRuns(w: World, s: State, t: Tid, order: seq<Cell>, outcomes: seq<Outcome>)
    requires 0 < w.cellSize && Uncontended(s) && |outcomes| == |order|
    requires Distinct(order) && CellSet(order) == s.dirty
    ensures Run(w, s, [FlushBegin(t, order)] + FlushSections(t, outcomes))
            == Some(OfferAll(s.(dirty := {}), order, outcomes).(workers := map[]))
  {
    hide Run;
    RunCons(w, s, FlushBegin(t, order), FlushSections(t, outcomes));
    assert DoFlushBegin(s, t, order).value == Mid(s.(dirty := {}), t, order);
    OfferAllRuns(w, s.(dirty := {}), t, order, outcomes);
  }

  // -------------------------------------------------------------------------------------
  // The objects
  // -------------------------------------------------------------------------------------

  /** The server facade as the handlers see it: the sim store, the fabric and the cache behind it. */
  class Server {
    var store: map<ActorId, Artifact>
    var products: map<Cell, nat>
    var sequences: map<Cell, nat>
    var counts: map<Cell, nat>
    var pending: set<Cell>
    var drained: set<Cell>
    var cache: map<Cell, map<ActorId, Actor>>

    constructor ()
      ensures store == map[] && products == map[] && pending == {} && drained == {} && cache == map[]
      ensures sequences == map[] && counts == map[]
    {
      store, products, pending, drained, cache := map[], map[], {}, {}, map[];
      sequences, counts := map[], map[];
    }

    /** Publish a cell; the sequence number on success. A capacity error is among the failing outcomes. */
    method PublishCellProduct(c: Cell, epoch: nat, outcome: Outcome) returns (number: Option<nat>)
      modifies this`products, this`sequences, this`counts, this`pending
      ensures var accepted := outcome == Done && EpochOf(old(products), c) <= epoch;
              if accepted then
                && products == old(products)[c := epoch]
                && sequences == old(sequences)[c := EpochOf(old(sequences), c) + 1]
                && counts == old(counts)[c := |Contents(store, c)|]
                && pending == (if c in cache then old(pending) + {c} else old(pending))
                && number == Some(sequences[c])
              else
                && products == old(products) && sequences == old(sequences) && counts == old(counts)
                && pending == old(pending) && number == None
    {
      if outcome == Done && EpochOf(products, c) <= epoch {
        products := products[c := epoch];
        counts := counts[c := |Contents(store, c)|];
        sequences := sequences[c := EpochOf(sequences, c) + 1];
        if c in cache {
          pending := pending + {c};
        }
        return Some(sequences[c]);
      }
      return None;
    }
  }

  class SpatialHandlers {
    const world: World
    const server: Server
    var actors: map<ActorId, Actor>
    var actorCells: map<ActorId, Cell>
    var dirtyCells: set<Cell>
    var cellEpochs: map<Cell, nat>

    ghost predicate Valid() { 0 < world.cellSize }

    /** The machine state between two calls. */
    ghost function View(): State
      reads this, server
    {
      State(actors, actorCells, dirtyCells, cellEpochs, server.store, server.products, server.pending,
            server.drained, server.cache, map[], map[])
    }

    constructor (world: World)
      requires 0 < world.cellSize
      ensures Valid() && fresh(server) && this.world == world && View() == INIT
    {
      this.world := world;
      server := new Server();
      actors, actorCells, dirtyCells, cellEpochs := map[], map[], {}, map[];
    }

    /** Publish the stored actor into its cell and mark what changed; `ok` is whether the sim store
        accepts the artifact. */
    method PublishLocked(a: ActorId, ok: bool)
      requires Valid() && a in actors
      modifies this, server
      ensures View() == Committed(world, old(View()), a, old(actors)[a], ok)
    {
      assert actors[a := actors[a]] == actors;
      if !ok {
        return;
      }
      var newCell := CellOf(world, actors[a]);
      var oldCell := Lookup(actorCells, a);
      server.store := server.store[a := Artifact(newCell, actors[a])];
      actorCells := actorCells[a := newCell];
      dirtyCells := dirtyCells + {newCell};
      if oldCell.Some? && oldCell.value != newCell {
        dirtyCells := dirtyCells + {oldCell.value};
      }
    }

    /** Spawn, movement or teleport: false, and nothing changed, when there is nothing to store. A spawn puts
        a fresh actor at rest at the origin, a movement stores what the model makes of the stored state, a
        teleport moves the actor on the ground, stops it, and keeps its height, input tick, flags and update
        counter. What is published is the stored state, in the cell of its position. */
    method Apply(a: ActorId, change: Change, ok: bool) returns (stored: bool)
      requires Valid()
      modifies this, server
      ensures forall b :: b != a ==> (b in actors <==> b in old(actors))
      ensures forall b :: b != a && b in actors && b in old(actors) ==> actors[b] == old(actors[b])
      ensures stored <==> match change
                          case Spawn => a !in old(actors)
                          case Move(input) => a in old(actors) && world.advance(old(actors)[a], input).Some?
                          case Teleport(_, _) => a in old(actors)
      ensures stored ==>
                && a in actors
                && var v := actors[a];
                   match change
                   case Spawn => v.px == v.py == v.pz == v.vx == v.vy == v.vz == 0
                                 && v.inputTick == v.flags == v.updateSeq == 0
                   case Move(input) => Some(v) == world.advance(old(actors)[a], input)
                   case Teleport(px, py) =>
                     var b := old(actors)[a];
                     && v.px == px && v.py == py && v.pz == b.pz && v.vx == v.vy == v.vz == 0
                     && v.inputTick == b.inputTick && v.flags == b.flags && v.updateSeq == b.updateSeq
      ensures stored && ok ==>
                && a in actors && a in server.store && server.store[a].actor == actors[a]
                && server.store[a].cell.x == actors[a].px / world.cellSize
                && server.store[a].cell.y == actors[a].py / world.cellSize
                && server.store[a].cell.z == actors[a].pz / world.cellSize
                && server.store[a].cell in dirtyCells
      ensures match Stores(world, old(View()), a, change)
              case None => !stored && View() == old(View())
              case Some(v) => stored && View() == Committed(world, old(View()), a, v, ok)
    {
      var v := match change
        case Spawn => (if a in actors then None else Some(ORIGIN))
        case Move(input) => (if a in actors then world.advance(actors[a], input) else None)
        case Teleport(px, py) => (if a in actors then Some(Teleported(actors[a], px, py)) else None);
      if v.None? {
        return false;
      }
      actors := actors[a := v.value];
      PublishLocked(a, ok);
      return true;
    }

    /** One cell of a flush. */
    method OfferCell(c: Cell, outcome: Outcome)
      requires Valid()
      modifies this`cellEpochs, server
      ensures View() == Offered(old(View()), c, outcome)
    {
      var epoch := EpochOf(cellEpochs, c) + 1;
      cellEpochs := cellEpochs[c := epoch];
      var _ := server.PublishCellProduct(c, epoch, outcome);
    }

    /** Drain the dirty set, whichever way it iterates; an error that is raised drops the rest. */
    method FlushDirtyCells(order: seq<Cell>, outcomes: seq<Outcome>)
      requires Valid() && Distinct(order) && CellSet(order) == dirtyCells && |outcomes| == |order|
      modifies this, server
      ensures View() == OfferAll(old(View()).(dirty := {}), order, outcomes)
    {
      hide Offered;
      dirtyCells := {};
      ghost var spec := OfferAll(View(), order, outcomes);
      for i := 0 to |order|
        invariant spec == OfferAll(View(), order[i..], outcomes[i..])
      {
        assert order[i..][1..] == order[i + 1..] && outcomes[i..][1..] == outcomes[i + 1..];
        OfferCell(order[i], outcomes[i]);
        if outcomes[i] == Raised {
          return;
        }
      }
    }
  }
}
