/** The replication pipeline as an interleaved step machine: movement workers and per-tick
    flushes of the spatial handler set, the fabric's epoch-checked publish and fan-out, and the
    gateway's cell cache with its subscribe, drain and re-snapshot paths. Every section the
    source runs under one lock is one step, so a run is any interleaving of those sections. */
module Coherence {
  import opened Prelude
  import opened Spatial

  type Tid = nat

  function StripeOf(a: ActorId): nat { a % STRIPES }

  // -------------------------------------------------------------------------------------
  // State
  // -------------------------------------------------------------------------------------

  /** The single artifact the sim store keeps for an actor. */
  datatype Artifact = Artifact(cell: Cell, actor: Actor)

  /** Where a worker stands between two of its atomic sections. */
  datatype Pc =
    | Holding(a: ActorId)                            // stripe held, nothing owed
    | Stored(a: ActorId)                             // new state stored, artifact not yet published
    | Published(a: ActorId)                          // artifact relocated, cell map not yet updated
    | Recorded(a: ActorId, prev: Option<Cell>)        // cell map updated, cells not yet marked
    | Flushing(todo: seq<Cell>)                      // a flush and the rest of its snapshot
    | Bumped(cell: Cell, epoch: nat, todo: seq<Cell>) // epoch allocated, fabric publish next
    | Subscribing(cell: Cell)                        // interest registered, snapshot next
  {
    predicate HoldsStripe() { Holding? || Stored? || Published? || Recorded? }
  }

  datatype State = State(
    actors: map<ActorId, Actor>,        // handlers: actor table
    actorCells: map<ActorId, Cell>,     // handlers: last published cell of each actor
    dirty: set<Cell>,                   // handlers: dirty-cell set
    epochs: map<Cell, nat>,             // handlers: last allocated authority epoch
    store: map<ActorId, Artifact>,      // sim artifact store
    products: map<Cell, nat>,           // fabric: authority epoch of each published cell
    pending: set<Cell>,                 // fabric: cells flagged in the cache's subscription
    drained: set<Cell>,                 // gateway: drained products not yet re-snapshotted
    cache: map<Cell, map<ActorId, Actor>>, // gateway: one entry per subscribed cell
    stripes: map<nat, Tid>,             // stripe locks and their holders
    workers: map<Tid, Pc>)

  const INIT: State := State(map[], map[], {}, map[], map[], map[], {}, {}, map[], map[], map[])

  /** What a snapshot of a cell reads from the sim store. */
  function Contents(store: map<ActorId, Artifact>, c: Cell): map<ActorId, Actor> {
    map a | a in store && store[a].cell == c :: store[a].actor
  }

  function EpochOf(m: map<Cell, nat>, c: Cell): nat { if c in m then m[c] else 0 }

  function CellSet(cs: seq<Cell>): set<Cell> { set c | c in cs }

  function Lookup(m: map<ActorId, Cell>, a: ActorId): Option<Cell> {
    if a in m then Some(m[a]) else None
  }

  function Elements(o: Option<Cell>): set<Cell> { if o.Some? then {o.value} else {} }

  // -------------------------------------------------------------------------------------
  // Steps
  // -------------------------------------------------------------------------------------

  /** How one fabric publish or cache snapshot ends. A stale epoch is not a fault: the fabric
      answers it by itself. */
  datatype Outcome =
    | Done       // the call took effect, or the fabric refused a stale epoch
    | Swallowed  // a state error other than the stale-epoch one, suppressed by the flush
    | Raised     // any other error: the flush stops and drops the rest of its snapshot

  /** The three transactions that give an actor a new state. */
  datatype Change = Spawn | Move(input: Input) | Teleport(px: int, py: int)

  datatype Event =
    | Acquire(t: Tid, a: ActorId)
    | Apply(t: Tid, change: Change)
    | PublishArtifact(t: Tid, ok: bool)
    | RecordCell(t: Tid)
    | Mark(t: Tid)
    | Release(t: Tid)
    | ChatMark(c: Cell)
    | FlushBegin(t: Tid, order: seq<Cell>)
    | Bump(t: Tid)
    | Offer(t: Tid, outcome: Outcome)
    | FlushEnd(t: Tid)
    | Subscribe(t: Tid, c: Cell)
    | SubscribeSnapshot(t: Tid, ok: bool)
    | Resubscribe(c: Cell, ok: bool)
    | Unsubscribe(c: Cell)
    | Drain(batch: set<Cell>)
    | Refresh(c: Cell, ok: bool)

  predicate BeingSubscribed(s: State, c: Cell) {
    exists t :: t in s.workers && s.workers[t] == Subscribing(c)
  }

  predicate Distinct(cs: seq<Cell>) {
    forall i, j :: 0 <= i < j < |cs| ==> cs[i] != cs[j]
  }

  // Movement workers: one function per lock-protected section.

  function DoAcquire(s: State, t: Tid, a: ActorId): Option<State> {
    if t in s.workers || StripeOf(a) in s.stripes then None
    else Some(s.(stripes := s.stripes[StripeOf(a) := t], workers := s.workers[t := Holding(a)]))
  }

  /** Store a new state for the actor whose stripe the worker holds. */
  function DoStore(s: State, t: Tid, v: Actor): Option<State> {
    if t in s.workers && s.workers[t].Holding? then
      var a := s.workers[t].a;
      Some(s.(actors := s.actors[a := v], workers := s.workers[t := Stored(a)]))
    else None
  }

  /** What a change stores: a spawn needs an unknown actor, a move or a teleport a known one, and a
      failing model call stores nothing. */
  function Stores(w: World, s: State, a: ActorId, change: Change): Option<Actor> {
    match change
    case Spawn => if a in s.actors then None else Some(ORIGIN)
    case Move(input) => if a in s.actors then w.advance(s.actors[a], input) else None
    case Teleport(px, py) => if a in s.actors then Some(Teleported(s.actors[a], px, py)) else None
  }

  /** The state a worker is about to store. */
  function NextActor(w: World, s: State, t: Tid, change: Change): Option<Actor> {
    if t in s.workers && s.workers[t].Holding? then Stores(w, s, s.workers[t].a, change) else None
  }

  function DoPublishArtifact(w: World, s: State, t: Tid, ok: bool): Option<State>
    requires 0 < w.cellSize
  {
    if t in s.workers && s.workers[t].Stored? && s.workers[t].a in s.actors then
      var a := s.workers[t].a;
      if ok then
        Some(s.(store := s.store[a := Artifact(CellOf(w, s.actors[a]), s.actors[a])],
                workers := s.workers[t := Published(a)]))
      else Some(s.(workers := s.workers[t := Holding(a)]))
    else None
  }

  function DoRecordCell(w: World, s: State, t: Tid): Option<State>
    requires 0 < w.cellSize
  {
    if t in s.workers && s.workers[t].Published? && s.workers[t].a in s.actors then
      var a := s.workers[t].a;
      Some(s.(actorCells := s.actorCells[a := CellOf(w, s.actors[a])],
              workers := s.workers[t := Recorded(a, Lookup(s.actorCells, a))]))
    else None
  }

  function DoMark(s: State, t: Tid): Option<State> {
    if t in s.workers && s.workers[t].Recorded? then
      var pc := s.workers[t];
      Some(s.(dirty := s.dirty + Elements(Lookup(s.actorCells, pc.a)) + Elements(pc.prev),
              workers := s.workers[t := Holding(pc.a)]))
    else None
  }

  function DoRelease(s: State, t: Tid): Option<State> {
    if t in s.workers && s.workers[t].Holding? then
      Some(s.(stripes := s.stripes - {StripeOf(s.workers[t].a)}, workers := s.workers - {t}))
    else None
  }

  // Flushes.

  /** The snapshot-and-clear of the dirty set, in whatever order the set iterates. */
  function DoFlushBegin(s: State, t: Tid, order: seq<Cell>): Option<State> {
    if t !in s.workers && Distinct(order) && CellSet(order) == s.dirty then
      Some(s.(dirty := {}, workers := s.workers[t := Flushing(order)]))
    else None
  }

  function DoBump(s: State, t: Tid): Option<State> {
    if t in s.workers && s.workers[t].Flushing? && s.workers[t].todo != [] then
      var todo := s.workers[t].todo;
      var e := EpochOf(s.epochs, todo[0]) + 1;
      Some(s.(epochs := s.epochs[todo[0] := e],
              workers := s.workers[t := Bumped(todo[0], e, todo[1..])]))
    else None
  }

  /** The fabric's publish: a lower epoch than the cell's current one is refused, anything else
      replaces it and flags the cell in every subscription that tracks it. */
  predicate Accepts(s: State, c: Cell, e: nat) { EpochOf(s.products, c) <= e }

  function DoOffer(s: State, t: Tid, outcome: Outcome): Option<State> {
    if t in s.workers && s.workers[t].Bumped? then
      var pc := s.workers[t];
      match outcome
      case Done =>
        var accepted := Accepts(s, pc.cell, pc.epoch);
        Some(s.(products := if accepted then s.products[pc.cell := pc.epoch] else s.products,
                pending := if accepted && pc.cell in s.cache then s.pending + {pc.cell} else s.pending,
                workers := s.workers[t := Flushing(pc.todo)]))
      case Swallowed => Some(s.(workers := s.workers[t := Flushing(pc.todo)]))
      case Raised => Some(s.(workers := s.workers - {t}))
    else None
  }

  function DoFlushEnd(s: State, t: Tid): Option<State> {
    if t in s.workers && s.workers[t] == Flushing([]) then Some(s.(workers := s.workers - {t}))
    else None
  }

  // The gateway cache.

  /** First interest in a cell: create the entry and register it on the fabric subscription. */
  function DoSubscribe(s: State, t: Tid, c: Cell): Option<State> {
    if t in s.workers || c in s.cache then None
    else Some(s.(cache := s.cache[c := map[]], workers := s.workers[t := Subscribing(c)]))
  }

  function DoSubscribeSnapshot(s: State, t: Tid, ok: bool): Option<State> {
    if t in s.workers && s.workers[t].Subscribing? then
      var c := s.workers[t].cell;
      Some(s.(workers := s.workers - {t},
              cache := if ok then s.cache[c := Contents(s.store, c)] else s.cache))
    else None
  }

  /** Further interest in a tracked cell: an entry still empty is snapshotted again, if that works. */
  function DoResubscribe(s: State, c: Cell, ok: bool): Option<State> {
    if c in s.cache && !BeingSubscribed(s, c) then
      Some(s.(cache := if ok && s.cache[c] == map[] then s.cache[c := Contents(s.store, c)] else s.cache))
    else None
  }

  function DoUnsubscribe(s: State, c: Cell): Option<State> {
    if c in s.cache && !BeingSubscribed(s, c) then
      Some(s.(cache := s.cache - {c}, pending := s.pending - {c}))
    else None
  }

  /** The reactor takes some of the pending products; the rest stay pending. */
  function DoDrain(s: State, batch: set<Cell>): Option<State> {
    if s.drained == {} && batch <= s.pending then
      Some(s.(pending := s.pending - batch, drained := batch))
    else None
  }

  /** Re-snapshot one drained cell; an entry evicted meanwhile is skipped, a failed snapshot
      keeps the previous contents. */
  function DoRefresh(s: State, c: Cell, ok: bool): Option<State> {
    if c in s.drained && !BeingSubscribed(s, c) then
      Some(s.(drained := s.drained - {c},
              cache := if ok && c in s.cache then s.cache[c := Contents(s.store, c)] else s.cache))
    else None
  }

  function Step(w: World, s: State, ev: Event): Option<State>
    requires 0 < w.cellSize
  {
    match ev
    case Acquire(t, a) => DoAcquire(s, t, a)
    case Apply(t, change) =>
      var v := NextActor(w, s, t, change);
      if v.Some? then DoStore(s, t, v.value) else None
    case PublishArtifact(t, ok) => DoPublishArtifact(w, s, t, ok)
    case RecordCell(t) => DoRecordCell(w, s, t)
    case Mark(t) => DoMark(s, t)
    case Release(t) => DoRelease(s, t)
    case ChatMark(c) => Some(s.(dirty := s.dirty + {c}))
    case FlushBegin(t, order) => DoFlushBegin(s, t, order)
    case Bump(t) => DoBump(s, t)
    case Offer(t, outcome) => DoOffer(s, t, outcome)
    case FlushEnd(t) => DoFlushEnd(s, t)
    case Subscribe(t, c) => DoSubscribe(s, t, c)
    case SubscribeSnapshot(t, ok) => DoSubscribeSnapshot(s, t, ok)
    case Resubscribe(c, ok) => DoResubscribe(s, c, ok)
    case Unsubscribe(c) => DoUnsubscribe(s, c)
    case Drain(batch) => DoDrain(s, batch)
    case Refresh(c, ok) => DoRefresh(s, c, ok)
  }

  /** The state after a run of steps, or None when some step was not enabled. */
  function Run(w: World, s: State, evs: seq<Event>): Option<State>
    requires 0 < w.cellSize
    decreases |evs|
  {
    if evs == [] then Some(s)
    else
      var next := Step(w, s, evs[0]);
      if next.None? then None else Run(w, next.value, evs[1..])
  }

  /** No fabric publish fails for a reason other than a stale epoch, and every snapshot the
      cache takes succeeds. */
  predicate FaultFree(ev: Event) {
    match ev
    case Offer(_, outcome) => outcome == Done
    case SubscribeSnapshot(_, ok) => ok
    case Refresh(_, ok) => ok
    case _ => true
  }

  // -------------------------------------------------------------------------------------
  // Coherence
  // -------------------------------------------------------------------------------------

  /** The cells a worker at `pc` will still cause to be marked, bumped or re-snapshotted. A
      flush about to offer an epoch the fabric will refuse owes that cell nothing. */
  ghost function Owes(s: State, pc: Pc): set<Cell> {
    match pc
    case Published(a) =>
      (if a in s.store then {s.store[a].cell} else {}) + Elements(Lookup(s.actorCells, a))
    case Recorded(a, prev) => Elements(Lookup(s.actorCells, a)) + Elements(prev)
    case Flushing(todo) => CellSet(todo)
    case Bumped(c, e, todo) => CellSet(todo) + (if Accepts(s, c, e) then {c} else {})
    case Subscribing(c) => {c}
    case _ => {}
  }

  ghost predicate Covered(s: State, c: Cell) {
    || c in s.dirty
    || c in s.pending
    || c in s.drained
    || exists t :: t in s.workers && c in Owes(s, s.workers[t])
  }

  /** The entry lists exactly the actors whose artifact is in the cell, each as its artifact has it. */
  ghost predicate Fresh(s: State, c: Cell)
    requires c in s.cache
  {
    && (forall a :: a in s.cache[c] <==> a in s.store && s.store[a].cell == c)
    && (forall a :: a in s.cache[c] ==> s.cache[c][a] == s.store[a].actor)
  }

  /** If the cell is cached and differs from the sim store, a refresh is on its way. */
  ghost predicate Kept(s: State, c: Cell) { c in s.cache ==> Fresh(s, c) || Covered(s, c) }

  ghost predicate Coherent(s: State) { forall c :: c in s.cache ==> Kept(s, c) }

  // -------------------------------------------------------------------------------------
  // Invariant
  // -------------------------------------------------------------------------------------

  ghost predicate WorkerOk(w: World, s: State, t: Tid)
    requires 0 < w.cellSize && t in s.workers
  {
    var pc := s.workers[t];
    && (pc.HoldsStripe() ==> StripeOf(pc.a) in s.stripes && s.stripes[StripeOf(pc.a)] == t)
    && (pc.Published? ==> pc.a in s.actors && pc.a in s.store
                          && s.store[pc.a].cell == CellOf(w, s.actors[pc.a]))
    && (pc.Bumped? ==> pc.epoch <= EpochOf(s.epochs, pc.cell))
  }

  ghost predicate MidPublish(s: State, a: ActorId) {
    exists t :: t in s.workers && s.workers[t] == Published(a)
  }

  /** Outside the publish section the handlers' cell map names the cell that holds the actor's
      one artifact. */
  ghost predicate PlacementOk(s: State, a: ActorId) {
    Lookup(s.actorCells, a) == (if a in s.store then Some(s.store[a].cell) else None)
  }

  ghost predicate Struct(w: World, s: State)
    requires 0 < w.cellSize
  {
    && (forall t :: t in s.workers ==> WorkerOk(w, s, t))
    && (forall a :: PlacementOk(s, a) || MidPublish(s, a))
    && (forall c :: EpochOf(s.products, c) <= EpochOf(s.epochs, c))
  }

  ghost predicate Inv(w: World, s: State)
    requires 0 < w.cellSize
  {
    Struct(w, s) && Coherent(s)
  }

  /** An actor keeps its placement while the workers in `moved`, none of them publishing it, move
      and neither its artifact's cell nor its recorded cell changes. */
  lemma PlacementFrame(s: State, s': State, moved: set<Tid>, a: ActorId)
    requires PlacementOk(s, a) || MidPublish(s, a)
    requires Lookup(s'.actorCells, a) == Lookup(s.actorCells, a)
    requires a in s'.store <==> a in s.store
    requires a in s.store ==> s'.store[a].cell == s.store[a].cell
    requires s'.workers - moved == s.workers - moved
    requires forall t :: t in moved && t in s.workers ==> s.workers[t] != Published(a)
    ensures PlacementOk(s', a) || MidPublish(s', a)
  {
    if MidPublish(s, a) {
      var u :| u in s.workers && s.workers[u] == Published(a);
      assert u in (s.workers - moved);
      assert u in s'.workers && s'.workers[u] == Published(a);
    }
  }

  /** Cover survives when the workers in `moved` move, provided the other workers' debts and the
      handlers', fabric's and gateway's sets still cover the cell. */
  lemma CoverFrame(s: State, s': State, moved: set<Tid>, c: Cell)
    requires Covered(s, c)
    requires s'.workers - moved == s.workers - moved
    requires forall t :: t in s.workers && t !in moved && c in Owes(s, s.workers[t])
                         ==> c in Owes(s', s.workers[t]) || Covered(s', c)
    requires forall t :: t in s.workers && t in moved && c in Owes(s, s.workers[t]) ==> Covered(s', c)
    requires c in s.dirty || c in s.pending || c in s.drained ==> Covered(s', c)
    ensures Covered(s', c)
  {
    if t :| t in s.workers && c in Owes(s, s.workers[t]) && t !in moved {
      assert t in (s.workers - moved);
      assert t in s'.workers && s'.workers[t] == s.workers[t];
    }
  }

  lemma ContentsFrame(s: State, s': State, c: Cell)
    requires c in s.cache && c in s'.cache && s'.cache[c] == s.cache[c]
    requires forall a :: a in s.store && s.store[a].cell == c ==> a in s'.store && s'.store[a] == s.store[a]
    requires forall a :: a in s'.store && s'.store[a].cell == c ==> a in s.store && s.store[a] == s'.store[a]
    ensures Fresh(s', c) <==> Fresh(s, c)
  {
  }

  /** The structural part only reads the handlers, the store, the epochs and the workers. */
  lemma StructFrame(w: World, s: State, s': State)
    requires 0 < w.cellSize && Struct(w, s)
    requires s' == s.(dirty := s'.dirty, pending := s'.pending, drained := s'.drained, cache := s'.cache)
    ensures Struct(w, s')
  {
    forall t | t in s'.workers ensures WorkerOk(w, s', t) { assert WorkerOk(w, s, t); }
    forall a ensures PlacementOk(s', a) || MidPublish(s', a) { PlacementFrame(s, s', {}, a); }
  }

  /** The stripe admits one worker per actor. */
  lemma OneWorkerPerActor(w: World, s: State, t: Tid, u: Tid)
    requires 0 < w.cellSize && Struct(w, s) && t in s.workers && u in s.workers
    requires s.workers[t].HoldsStripe() && s.workers[u].HoldsStripe()
    requires s.workers[t].a == s.workers[u].a
    ensures t == u
  {
    assert WorkerOk(w, s, t) && WorkerOk(w, s, u);
  }

  // Movement workers.

  lemma AcquireStruct(w: World, s: State, t: Tid, a: ActorId)
    requires 0 < w.cellSize && Struct(w, s) && DoAcquire(s, t, a).Some?
    ensures Struct(w, DoAcquire(s, t, a).value)
  {
    var s' := DoAcquire(s, t, a).value;
    forall b ensures PlacementOk(s', b) || MidPublish(s', b) { PlacementFrame(s, s', {t}, b); }
  }

  lemma AcquireCovers(s: State, t: Tid, a: ActorId, k: Cell)
    requires Kept(s, k) && DoAcquire(s, t, a).Some?
    ensures Kept(DoAcquire(s, t, a).value, k)
  {
    var s' := DoAcquire(s, t, a).value;
    if Covered(s, k) { CoverFrame(s, s', {t}, k); }
  }

  lemma StoreStruct(w: World, s: State, t: Tid, v: Actor)
    requires 0 < w.cellSize && Struct(w, s) && DoStore(s, t, v).Some?
    ensures Struct(w, DoStore(s, t, v).value)
  {
    var s' := DoStore(s, t, v).value;
    forall b ensures PlacementOk(s', b) || MidPublish(s', b) { PlacementFrame(s, s', {t}, b); }
  }

  lemma StoreCovers(s: State, t: Tid, v: Actor, k: Cell)
    requires Kept(s, k) && DoStore(s, t, v).Some?
    ensures Kept(DoStore(s, t, v).value, k)
  {
    var s' := DoStore(s, t, v).value;
    if Covered(s, k) { CoverFrame(s, s', {t}, k); }
  }

  lemma PublishArtifactStruct(w: World, s: State, t: Tid, ok: bool)
    requires 0 < w.cellSize && Struct(w, s) && DoPublishArtifact(w, s, t, ok).Some?
    ensures Struct(w, DoPublishArtifact(w, s, t, ok).value)
  {
    var s' := DoPublishArtifact(w, s, t, ok).value;
    forall b ensures PlacementOk(s', b) || MidPublish(s', b) {
      if b == s.workers[t].a && ok { assert s'.workers[t] == Published(b); } else { PlacementFrame(s, s', {t}, b); }
    }
  }

  /** Relocating the artifact changes the contents of the departed and the arrival cell only, and
      the publishing worker owes both. */
  lemma PublishArtifactCovers(w: World, s: State, t: Tid, ok: bool, k: Cell)
    requires 0 < w.cellSize && Struct(w, s) && Kept(s, k)
    requires DoPublishArtifact(w, s, t, ok).Some?
    ensures Kept(DoPublishArtifact(w, s, t, ok).value, k)
  {
    var s' := DoPublishArtifact(w, s, t, ok).value;
    var a := s.workers[t].a;
    assert PlacementOk(s, a) by {
      if u :| u in s.workers && s.workers[u] == Published(a) { OneWorkerPerActor(w, s, t, u); }
    }
    if ok && k in Owes(s', Published(a)) {
      assert s'.workers[t] == Published(a);
    } else if k in s.cache {
      ContentsFrame(s, s', k);
      if Covered(s, k) { CoverFrame(s, s', {t}, k); }
    }
  }

  lemma RecordCellStruct(w: World, s: State, t: Tid)
    requires 0 < w.cellSize && Struct(w, s) && DoRecordCell(w, s, t).Some?
    ensures Struct(w, DoRecordCell(w, s, t).value)
  {
    var s' := DoRecordCell(w, s, t).value;
    assert WorkerOk(w, s, t);
    forall b ensures PlacementOk(s', b) || MidPublish(s', b) {
      if b != s.workers[t].a { PlacementFrame(s, s', {t}, b); }
    }
  }

  lemma RecordCellCovers(w: World, s: State, t: Tid, k: Cell)
    requires 0 < w.cellSize && Struct(w, s) && Kept(s, k) && DoRecordCell(w, s, t).Some?
    ensures Kept(DoRecordCell(w, s, t).value, k)
  {
    var s' := DoRecordCell(w, s, t).value;
    var a := s.workers[t].a;
    if Covered(s, k) {
      if k in Owes(s, Published(a)) {
        assert WorkerOk(w, s, t);
        assert k in Owes(s', s'.workers[t]);
      } else {
        forall u | u in s.workers && u != t && s.workers[u].HoldsStripe() ensures s.workers[u].a != a {
          if s.workers[u].a == a { OneWorkerPerActor(w, s, t, u); }
        }
        CoverFrame(s, s', {t}, k);
      }
    }
  }

  lemma MarkStruct(w: World, s: State, t: Tid)
    requires 0 < w.cellSize && Struct(w, s) && DoMark(s, t).Some?
    ensures Struct(w, DoMark(s, t).value)
  {
    var s' := DoMark(s, t).value;
    forall b ensures PlacementOk(s', b) || MidPublish(s', b) { PlacementFrame(s, s', {t}, b); }
  }

  lemma MarkCovers(s: State, t: Tid, k: Cell)
    requires Kept(s, k) && DoMark(s, t).Some?
    ensures Kept(DoMark(s, t).value, k)
  {
    var s' := DoMark(s, t).value;
    if Covered(s, k) { CoverFrame(s, s', {t}, k); }
  }

  lemma ReleaseStruct(w: World, s: State, t: Tid)
    requires 0 < w.cellSize && Struct(w, s) && DoRelease(s, t).Some?
    ensures Struct(w, DoRelease(s, t).value)
  {
    var s' := DoRelease(s, t).value;
    forall b ensures PlacementOk(s', b) || MidPublish(s', b) { PlacementFrame(s, s', {t}, b); }
  }

  lemma ReleaseCovers(s: State, t: Tid, k: Cell)
    requires Kept(s, k) && DoRelease(s, t).Some?
    ensures Kept(DoRelease(s, t).value, k)
  {
    var s' := DoRelease(s, t).value;
    if Covered(s, k) { CoverFrame(s, s', {t}, k); }
  }

  // Flushes.

  lemma FlushBeginStruct(w: World, s: State, t: Tid, order: seq<Cell>)
    requires 0 < w.cellSize && Struct(w, s) && DoFlushBegin(s, t, order).Some?
    ensures Struct(w, DoFlushBegin(s, t, order).value)
  {
    var s' := DoFlushBegin(s, t, order).value;
    forall b ensures PlacementOk(s', b) || MidPublish(s', b) { PlacementFrame(s, s', {t}, b); }
  }

  lemma FlushBeginCovers(s: State, t: Tid, order: seq<Cell>, k: Cell)
    requires Kept(s, k) && DoFlushBegin(s, t, order).Some?
    ensures Kept(DoFlushBegin(s, t, order).value, k)
  {
    var s' := DoFlushBegin(s, t, order).value;
    if k in s.dirty { assert k in Owes(s', s'.workers[t]); }
    if Covered(s, k) { CoverFrame(s, s', {t}, k); }
  }

  lemma BumpStruct(w: World, s: State, t: Tid)
    requires 0 < w.cellSize && Struct(w, s) && DoBump(s, t).Some?
    ensures Struct(w, DoBump(s, t).value)
  {
    var s' := DoBump(s, t).value;
    forall b ensures PlacementOk(s', b) || MidPublish(s', b) { PlacementFrame(s, s', {t}, b); }
  }

  /** A fresh epoch is above everything the fabric has accepted, so the flush still owes the cell. */
  lemma BumpCovers(w: World, s: State, t: Tid, k: Cell)
    requires 0 < w.cellSize && Struct(w, s) && Kept(s, k) && DoBump(s, t).Some?
    ensures Kept(DoBump(s, t).value, k)
  {
    var s' := DoBump(s, t).value;
    var todo := s.workers[t].todo;
    assert todo == [todo[0]] + todo[1..];
    if k in Owes(s, s.workers[t]) { assert k in Owes(s', s'.workers[t]); }
    if Covered(s, k) { CoverFrame(s, s', {t}, k); }
  }

  lemma OfferStruct(w: World, s: State, t: Tid, outcome: Outcome)
    requires 0 < w.cellSize && Struct(w, s) && DoOffer(s, t, outcome).Some?
    ensures Struct(w, DoOffer(s, t, outcome).value)
  {
    var s' := DoOffer(s, t, outcome).value;
    assert WorkerOk(w, s, t);
    forall b ensures PlacementOk(s', b) || MidPublish(s', b) { PlacementFrame(s, s', {t}, b); }
  }

  /** Accepting an epoch flags the cell pending, which takes over from every flush that still
      carries a lower epoch for it; refusing one leaves the cover that made it stale. */
  lemma OfferCovers(s: State, t: Tid, k: Cell)
    requires Kept(s, k) && DoOffer(s, t, Done).Some?
    ensures Kept(DoOffer(s, t, Done).value, k)
  {
    var s' := DoOffer(s, t, Done).value;
    var pc := s.workers[t];
    if k in s.cache && Covered(s, k) && k !in s'.pending {
      assert k == pc.cell ==> pc.epoch < EpochOf(s.products, k);
      assert EpochOf(s'.products, k) == EpochOf(s.products, k);
      if k in Owes(s, pc) { assert k in Owes(s', s'.workers[t]); }
      forall u | u in s.workers && u != t && k in Owes(s, s.workers[u]) ensures k in Owes(s', s.workers[u]) {
        assert s'.store == s.store && s'.actorCells == s.actorCells;
      }
      CoverFrame(s, s', {t}, k);
    }
  }

  lemma FlushEndStruct(w: World, s: State, t: Tid)
    requires 0 < w.cellSize && Struct(w, s) && DoFlushEnd(s, t).Some?
    ensures Struct(w, DoFlushEnd(s, t).value)
  {
    var s' := DoFlushEnd(s, t).value;
    forall b ensures PlacementOk(s', b) || MidPublish(s', b) { PlacementFrame(s, s', {t}, b); }
  }

  lemma FlushEndCovers(s: State, t: Tid, k: Cell)
    requires Kept(s, k) && DoFlushEnd(s, t).Some?
    ensures Kept(DoFlushEnd(s, t).value, k)
  {
    var s' := DoFlushEnd(s, t).value;
    if Covered(s, k) { CoverFrame(s, s', {t}, k); }
  }

  lemma ChatMarkCovers(s: State, c: Cell, k: Cell)
    requires Kept(s, k)
    ensures Kept(s.(dirty := s.dirty + {c}), k)
  {
    if Covered(s, k) { CoverFrame(s, s.(dirty := s.dirty + {c}), {}, k); }
  }

  // The gateway cache.

  lemma SubscribeStruct(w: World, s: State, t: Tid, c: Cell)
    requires 0 < w.cellSize && Struct(w, s) && DoSubscribe(s, t, c).Some?
    ensures Struct(w, DoSubscribe(s, t, c).value)
  {
    var s' := DoSubscribe(s, t, c).value;
    forall b ensures PlacementOk(s', b) || MidPublish(s', b) { PlacementFrame(s, s', {t}, b); }
  }

  lemma SubscribeCovers(s: State, t: Tid, c: Cell, k: Cell)
    requires Kept(s, k) && DoSubscribe(s, t, c).Some?
    ensures Kept(DoSubscribe(s, t, c).value, k)
  {
    var s' := DoSubscribe(s, t, c).value;
    if k == c { assert k in Owes(s', s'.workers[t]); } else if Covered(s, k) { CoverFrame(s, s', {t}, k); }
  }

  lemma SubscribeSnapshotStruct(w: World, s: State, t: Tid, ok: bool)
    requires 0 < w.cellSize && Struct(w, s) && DoSubscribeSnapshot(s, t, ok).Some?
    ensures Struct(w, DoSubscribeSnapshot(s, t, ok).value)
  {
    var s' := DoSubscribeSnapshot(s, t, ok).value;
    forall b ensures PlacementOk(s', b) || MidPublish(s', b) { PlacementFrame(s, s', {t}, b); }
  }

  /** A snapshot taken after the interest is registered misses no update; one that fails leaves only its
      own cell behind. */
  lemma SubscribeSnapshotCovers(s: State, t: Tid, ok: bool, k: Cell)
    requires DoSubscribeSnapshot(s, t, ok).Some?
    requires if k == s.workers[t].cell then ok else Kept(s, k)
    ensures Kept(DoSubscribeSnapshot(s, t, ok).value, k)
  {
    var s' := DoSubscribeSnapshot(s, t, ok).value;
    if k != s.workers[t].cell && Covered(s, k) { CoverFrame(s, s', {t}, k); }
  }

  lemma ResubscribeCovers(s: State, c: Cell, ok: bool, k: Cell)
    requires Kept(s, k) && DoResubscribe(s, c, ok).Some?
    ensures Kept(DoResubscribe(s, c, ok).value, k)
  {
    var s' := DoResubscribe(s, c, ok).value;
    if Covered(s, k) { CoverFrame(s, s', {}, k); }
  }

  lemma UnsubscribeCovers(s: State, c: Cell, k: Cell)
    requires Kept(s, k) && DoUnsubscribe(s, c).Some?
    ensures Kept(DoUnsubscribe(s, c).value, k)
  {
    var s' := DoUnsubscribe(s, c).value;
    if k in s'.cache && Covered(s, k) { CoverFrame(s, s', {}, k); }
  }

  lemma DrainCovers(s: State, batch: set<Cell>, k: Cell)
    requires Kept(s, k) && DoDrain(s, batch).Some?
    ensures Kept(DoDrain(s, batch).value, k)
  {
    var s' := DoDrain(s, batch).value;
    if Covered(s, k) { CoverFrame(s, s', {}, k); }
  }

  lemma RefreshCovers(s: State, c: Cell, ok: bool, k: Cell)
    requires DoRefresh(s, c, ok).Some?
    requires if k == c then ok else Kept(s, k)
    ensures Kept(DoRefresh(s, c, ok).value, k)
  {
    var s' := DoRefresh(s, c, ok).value;
    if k != c && Covered(s, k) { CoverFrame(s, s', {}, k); }
  }

  // -------------------------------------------------------------------------------------
  // Theorems
  // -------------------------------------------------------------------------------------

  lemma StepStruct(w: World, s: State, ev: Event)
    requires 0 < w.cellSize && Struct(w, s) && Step(w, s, ev).Some?
    ensures Struct(w, Step(w, s, ev).value)
  {
    hide Struct;
    match ev
    case Acquire(t, a) => AcquireStruct(w, s, t, a);
    case Apply(t, change) => StoreStruct(w, s, t, NextActor(w, s, t, change).value);
    case PublishArtifact(t, ok) => PublishArtifactStruct(w, s, t, ok);
    case RecordCell(t) => RecordCellStruct(w, s, t);
    case Mark(t) => MarkStruct(w, s, t);
    case Release(t) => ReleaseStruct(w, s, t);
    case FlushBegin(t, order) => FlushBeginStruct(w, s, t, order);
    case Bump(t) => BumpStruct(w, s, t);
    case Offer(t, outcome) => OfferStruct(w, s, t, outcome);
    case FlushEnd(t) => FlushEndStruct(w, s, t);
    case Subscribe(t, c) => SubscribeStruct(w, s, t, c);
    case SubscribeSnapshot(t, ok) => SubscribeSnapshotStruct(w, s, t, ok);
    case _ => StructFrame(w, s, Step(w, s, ev).value);
  }

  /** The cells a failing fabric publish makes the flush forget: the offered one when the error is
      swallowed, and the rest of the snapshot as well when it is raised. A cell whose epoch the fabric
      would have refused anyway is not forgotten: whoever raised its epoch has it. */
  ghost function Forgotten(s: State, t: Tid, outcome: Outcome): set<Cell>
    requires t in s.workers && s.workers[t].Bumped?
  {
    var pc := s.workers[t];
    (if Accepts(s, pc.cell, pc.epoch) then {pc.cell} else {}) + (if outcome == Raised then CellSet(pc.todo) else {})
  }

  /** The cells whose refresh has been lost, one event further. A failed publish, re-snapshot or first
      snapshot loses cells; a mark, an accepted publish, a good snapshot or an eviction makes up for it. */
  ghost function LostAfter(s: State, lost: set<Cell>, ev: Event): set<Cell> {
    match ev
    case Offer(t, outcome) =>
      if t !in s.workers || !s.workers[t].Bumped? then lost
      else if outcome != Done then lost + Forgotten(s, t, outcome)
      else if Accepts(s, s.workers[t].cell, s.workers[t].epoch) then lost - {s.workers[t].cell}
      else lost
    case SubscribeSnapshot(t, ok) =>
      if t !in s.workers || !s.workers[t].Subscribing? then lost
      else if ok then lost - {s.workers[t].cell} else lost + {s.workers[t].cell}
    case Refresh(c, ok) => if ok then lost - {c} else lost + {c}
    case Mark(t) =>
      if t !in s.workers || !s.workers[t].Recorded? then lost
      else lost - Elements(Lookup(s.actorCells, s.workers[t].a)) - Elements(s.workers[t].prev)
    case ChatMark(c) => lost - {c}
    case Unsubscribe(c) => lost - {c}
    case _ => lost
  }

  /** A failing publish leaves every cell it does not make the flush forget covered. */
  lemma FaultCovers(s: State, t: Tid, outcome: Outcome, k: Cell)
    requires Kept(s, k) && DoOffer(s, t, outcome).Some? && outcome != Done && k !in Forgotten(s, t, outcome)
    ensures Kept(DoOffer(s, t, outcome).value, k)
  {
    var s' := DoOffer(s, t, outcome).value;
    if Covered(s, k) {
      if k in Owes(s, s.workers[t]) { assert k in Owes(s', s'.workers[t]); }
      CoverFrame(s, s', {t}, k);
    }
  }

  /** An accepted publish of a cached cell covers it, whatever was lost before. */
  lemma AcceptedCovers(s: State, t: Tid, k: Cell)
    requires DoOffer(s, t, Done).Some? && s.workers[t].cell == k && Accepts(s, k, s.workers[t].epoch)
    ensures Kept(DoOffer(s, t, Done).value, k)
  {
  }

  /** Marking covers the marked cells, whatever was lost before. */
  lemma MarkedCovers(s: State, t: Tid, k: Cell)
    requires DoMark(s, t).Some?
    requires k in Elements(Lookup(s.actorCells, s.workers[t].a)) + Elements(s.workers[t].prev)
    ensures Kept(DoMark(s, t).value, k)
  {
  }

  lemma ChatMarkedCovers(s: State, c: Cell)
    ensures Kept(s.(dirty := s.dirty + {c}), c)
  {
  }

  lemma EvictedKept(s: State, c: Cell)
    requires DoUnsubscribe(s, c).Some?
    ensures Kept(DoUnsubscribe(s, c).value, c)
  {
  }

  /** One step of any kind, faults included, keeps every cell that is not lost after it. */
  lemma StepKeeps(w: World, s: State, lost: set<Cell>, ev: Event, k: Cell)
    requires 0 < w.cellSize && Struct(w, s) && Step(w, s, ev).Some?
    requires k !in lost ==> Kept(s, k)
    requires k !in LostAfter(s, lost, ev)
    ensures Kept(Step(w, s, ev).value, k)
  {
    hide Struct, Kept, Contents;
    match ev
    case Acquire(t, a) => AcquireCovers(s, t, a, k);
    case Apply(t, change) => StoreCovers(s, t, NextActor(w, s, t, change).value, k);
    case PublishArtifact(t, ok) => PublishArtifactCovers(w, s, t, ok, k);
    case RecordCell(t) => RecordCellCovers(w, s, t, k);
    case Mark(t) => if k in lost { MarkedCovers(s, t, k); } else { MarkCovers(s, t, k); }
    case Release(t) => ReleaseCovers(s, t, k);
    case ChatMark(c) => if k == c { ChatMarkedCovers(s, c); } else { ChatMarkCovers(s, c, k); }
    case FlushBegin(t, order) => FlushBeginCovers(s, t, order, k);
    case Bump(t) => BumpCovers(w, s, t, k);
    case Offer(t, outcome) =>
      if outcome != Done {
        FaultCovers(s, t, outcome, k);
      } else if k in lost {
        AcceptedCovers(s, t, k);
      } else {
        OfferCovers(s, t, k);
      }
    case FlushEnd(t) => FlushEndCovers(s, t, k);
    case Subscribe(t, c) => SubscribeCovers(s, t, c, k);
    case SubscribeSnapshot(t, ok) => SubscribeSnapshotCovers(s, t, ok, k);
    case Resubscribe(c, ok) => ResubscribeCovers(s, c, ok, k);
    case Unsubscribe(c) => if k == c { EvictedKept(s, c); } else { UnsubscribeCovers(s, c, k); }
    case Drain(batch) => DrainCovers(s, batch, k);
    case Refresh(c, ok) => RefreshCovers(s, c, ok, k);
  }

  /** The cells lost over a run. */
  ghost function LostBy(w: World, s: State, evs: seq<Event>, lost: set<Cell>): set<Cell>
    requires 0 < w.cellSize && Run(w, s, evs).Some?
    decreases |evs|
  {
    if evs == [] then lost else LostBy(w, Step(w, s, evs[0]).value, evs[1..], LostAfter(s, lost, evs[0]))
  }

  lemma {:induction false} RunKeeps(w: World, s: State, evs: seq<Event>, lost: set<Cell>)
    requires 0 < w.cellSize && Struct(w, s) && Run(w, s, evs).Some?
    requires forall k :: k !in lost ==> Kept(s, k)
    ensures Struct(w, Run(w, s, evs).value)
    ensures forall k :: k !in LostBy(w, s, evs, lost) ==> Kept(Run(w, s, evs).value, k)
    decreases |evs|
  {
    hide Struct, Kept, Step, LostAfter;
    if evs != [] {
      var s' := Step(w, s, evs[0]).value;
      StepStruct(w, s, evs[0]);
      forall k | k !in LostAfter(s, lost, evs[0]) ensures Kept(s', k) { StepKeeps(w, s, lost, evs[0], k); }
      RunKeeps(w, s', evs[1..], LostAfter(s, lost, evs[0]));
    }
  }

  /** Coherence up to what faults lost, over every interleaving and every fault: in every reachable state
      a cached cell that differs from the sim store is covered, unless a failed publish or snapshot in the
      run's history lost it and nothing since has made up for it. */
  lemma RunCoherentButLost(w: World, evs: seq<Event>, c: Cell)
    requires 0 < w.cellSize && Run(w, INIT, evs).Some?
    requires c in Run(w, INIT, evs).value.cache && c !in LostBy(w, INIT, evs, {})
    ensures Fresh(Run(w, INIT, evs).value, c) || Covered(Run(w, INIT, evs).value, c)
  {
    hide Run, LostBy;
    RunKeeps(w, INIT, evs, {});
    assert Kept(Run(w, INIT, evs).value, c);
  }

  lemma FaultFreeLoses(s: State, ev: Event)
    requires FaultFree(ev)
    ensures LostAfter(s, {}, ev) == {}
  {
  }

  lemma {:induction false} FaultFreeLosesNothing(w: World, s: State, evs: seq<Event>)
    requires 0 < w.cellSize && Run(w, s, evs).Some? && forall ev :: ev in evs ==> FaultFree(ev)
    ensures LostBy(w, s, evs, {}) == {}
    decreases |evs|
  {
    hide Step, LostAfter, FaultFree;
    if evs != [] {
      FaultFreeLoses(s, evs[0]);
      FaultFreeLosesNothing(w, Step(w, s, evs[0]).value, evs[1..]);
    }
  }

  lemma RunKeepsInv(w: World, s: State, evs: seq<Event>)
    requires 0 < w.cellSize && Inv(w, s) && Run(w, s, evs).Some?
    requires forall ev :: ev in evs ==> FaultFree(ev)
    ensures Inv(w, Run(w, s, evs).value)
  {
    hide Run, LostBy, Struct, FaultFree;
    RunKeeps(w, s, evs, {});
    FaultFreeLosesNothing(w, s, evs);
  }

  /** Cache coherence over every interleaving: whatever the workers, overlapping flushes,
      subscriptions and refreshes do, a cached cell that differs from the sim store is dirty,
      about to be marked, in an unpublished flush snapshot whose epoch the fabric will accept,
      or pending. */
  lemma RunCoherent(w: World, evs: seq<Event>)
    requires 0 < w.cellSize && Run(w, INIT, evs).Some?
    requires forall ev :: ev in evs ==> FaultFree(ev)
    ensures Coherent(Run(w, INIT, evs).value)
  {
    hide Run;
    RunKeepsInv(w, INIT, evs);
  }

  // -------------------------------------------------------------------------------------
  // Convergence
  // -------------------------------------------------------------------------------------

  ghost predicate Quiescent(s: State) {
    s.workers == map[] && s.dirty == {} && s.pending == {} && s.drained == {}
  }

  /** Once nothing is in flight the cache is the store: no update is ever lost. */
  lemma QuiescentIsFresh(w: World, evs: seq<Event>, c: Cell)
    requires 0 < w.cellSize && Run(w, INIT, evs).Some?
    requires forall ev :: ev in evs ==> FaultFree(ev)
    requires Quiescent(Run(w, INIT, evs).value) && c in Run(w, INIT, evs).value.cache
    ensures Fresh(Run(w, INIT, evs).value, c)
  {
    RunCoherent(w, evs);
    assert Kept(Run(w, INIT, evs).value, c);
  }

  /** With faults: once nothing is in flight, every cached cell the run has not lost equals the store. */
  lemma QuiescentIsFreshButLost(w: World, evs: seq<Event>, c: Cell)
    requires 0 < w.cellSize && Run(w, INIT, evs).Some?
    requires Quiescent(Run(w, INIT, evs).value) && c in Run(w, INIT, evs).value.cache
    requires c !in LostBy(w, INIT, evs, {})
    ensures Fresh(Run(w, INIT, evs).value, c)
  {
    hide Run, LostBy;
    RunCoherentButLost(w, evs, c);
  }

  function Publishes(t: Tid, n: nat): seq<Event> {
    if n == 0 then [FlushEnd(t)] else [Bump(t), Offer(t, Done)] + Publishes(t, n - 1)
  }

  function Refreshes(cs: seq<Cell>): seq<Event> {
    if cs == [] then [] else [Refresh(cs[0], true)] + Refreshes(cs[1..])
  }

  /** One tick with no other worker: flush the dirty set in `order`, then let the gateway drain
      and re-snapshot `batch`. */
  function TickRun(t: Tid, order: seq<Cell>, batch: seq<Cell>): seq<Event> {
    ([FlushBegin(t, order)] + Publishes(t, |order|)) + ([Drain(CellSet(batch))] + Refreshes(batch))
  }

  lemma {:induction false} RunAppend(w: World, s: State, xs: seq<Event>, ys: seq<Event>)
    requires 0 < w.cellSize && Run(w, s, xs).Some?
    ensures Run(w, s, xs + ys) == Run(w, Run(w, s, xs).value, ys)
    decreases |xs|
  {
    if xs == [] {
      assert xs + ys == ys;
    } else {
      assert (xs + ys)[1..] == xs[1..] + ys;
      RunAppend(w, Step(w, s, xs[0]).value, xs[1..], ys);
    }
  }

  lemma RunNil(w: World, s: State)
    requires 0 < w.cellSize
    ensures Run(w, s, []) == Some(s)
  {
  }

  lemma RunOne(w: World, s: State, ev: Event)
    requires 0 < w.cellSize
    ensures Run(w, s, [ev]) == Step(w, s, ev)
  {
    assert [ev][1..] == [];
  }

  lemma RunCons(w: World, s: State, ev: Event, rest: seq<Event>)
    requires 0 < w.cellSize && Step(w, s, ev).Some?
    ensures Run(w, s, [ev] + rest) == Run(w, Step(w, s, ev).value, rest)
  {
    assert ([ev] + rest)[1..] == rest;
  }

  /** The state in which a lone flush has published the first cell of its snapshot. */
  ghost function PublishOne(s: State, t: Tid): State
    requires t in s.workers && s.workers[t].Flushing? && s.workers[t].todo != []
  {
    DoOffer(DoBump(s, t).value, t, Done).value
  }

  lemma PublishOneAccepted(w: World, s: State, t: Tid)
    requires 0 < w.cellSize && Struct(w, s)
    requires t in s.workers && s.workers[t].Flushing? && s.workers[t].todo != []
    ensures Struct(w, PublishOne(s, t))
    ensures var todo, s2 := s.workers[t].todo, PublishOne(s, t);
            && s2 == s.(workers := s.workers[t := Flushing(todo[1..])], epochs := s2.epochs,
                        products := s2.products, pending := s2.pending)
            && s2.pending == s.pending + ({todo[0]} * s.cache.Keys)
  {
    var s1 := DoBump(s, t).value;
    BumpStruct(w, s, t);
    OfferStruct(w, s1, t, Done);
    assert Accepts(s1, s.workers[t].todo[0], s1.workers[t].epoch);
  }

  lemma PublishOneRuns(w: World, s: State, t: Tid, rest: seq<Event>)
    requires 0 < w.cellSize && t in s.workers && s.workers[t].Flushing? && s.workers[t].todo != []
    ensures Run(w, s, [Bump(t), Offer(t, Done)] + rest) == Run(w, PublishOne(s, t), rest)
  {
    hide Run;
    var s1 := DoBump(s, t).value;
    RunCons(w, s, Bump(t), [Offer(t, Done)] + rest);
    RunCons(w, s1, Offer(t, Done), rest);
    assert [Bump(t), Offer(t, Done)] + rest == [Bump(t)] + ([Offer(t, Done)] + rest);
  }

  /** What a lone flush of `todo` leaves: the worker is gone, every cell of the snapshot that is
      cached is pending, and only epochs and products moved besides. */
  ghost predicate Flushed(s: State, todo: seq<Cell>, r: Option<State>) {
    && r.Some?
    && r.value == s.(workers := map[], epochs := r.value.epochs,
                     products := r.value.products, pending := r.value.pending)
    && r.value.pending == s.pending + (CellSet(todo) * s.cache.Keys)
  }

  lemma FlushedEnd(w: World, s: State, t: Tid)
    requires 0 < w.cellSize && s.workers == map[t := Flushing([])]
    ensures Flushed(s, [], Run(w, s, [FlushEnd(t)]))
  {
    hide Run;
    RunOne(w, s, FlushEnd(t));
  }

  lemma FlushedCons(w: World, s: State, t: Tid, todo: seq<Cell>, r: Option<State>)
    requires 0 < w.cellSize && Struct(w, s) && s.workers == map[t := Flushing(todo)] && todo != []
    requires Flushed(PublishOne(s, t), todo[1..], r)
    ensures Flushed(s, todo, r)
  {
    PublishOneAccepted(w, s, t);
    assert CellSet(todo) == {todo[0]} + CellSet(todo[1..]);
  }

  lemma {:induction false} PublishesRun(w: World, s: State, t: Tid, todo: seq<Cell>)
    requires 0 < w.cellSize && Struct(w, s) && s.workers == map[t := Flushing(todo)]
    ensures Flushed(s, todo, Run(w, s, Publishes(t, |todo|)))
    decreases |todo|
  {
    hide Run, Flushed, Struct, DoBump, DoOffer;
    if todo == [] {
      FlushedEnd(w, s, t);
    } else {
      PublishOneAccepted(w, s, t);
      PublishOneRuns(w, s, t, Publishes(t, |todo| - 1));
      PublishesRun(w, PublishOne(s, t), t, todo[1..]);
      FlushedCons(w, s, t, todo, Run(w, s, Publishes(t, |todo|)));
    }
  }

  lemma {:induction false} RefreshesRun(w: World, s: State, cs: seq<Cell>)
    requires 0 < w.cellSize && s.workers == map[] && Distinct(cs) && s.drained == CellSet(cs)
    ensures var r := Run(w, s, Refreshes(cs));
            && r.Some? && r.value == s.(drained := {}, cache := r.value.cache)
            && r.value.cache.Keys == s.cache.Keys
    decreases |cs|
  {
    hide Run;
    if cs != [] {
      var s1 := DoRefresh(s, cs[0], true).value;
      RunCons(w, s, Refresh(cs[0], true), Refreshes(cs[1..]));
      assert CellSet(cs) == {cs[0]} + CellSet(cs[1..]);
      assert cs[0] !in cs[1..];
      RefreshesRun(w, s1, cs[1..]);
    } else {
      assert CellSet(cs) == {};
      RunNil(w, s);
    }
  }

  lemma LoneFlushRuns(w: World, s: State, t: Tid, order: seq<Cell>)
    requires 0 < w.cellSize && Struct(w, s) && s.workers == map[]
    requires Distinct(order) && CellSet(order) == s.dirty
    ensures Flushed(s.(dirty := {}), order, Run(w, s, [FlushBegin(t, order)] + Publishes(t, |order|)))
  {
    hide Run;
    var s1 := DoFlushBegin(s, t, order).value;
    FlushBeginStruct(w, s, t, order);
    PublishesRun(w, s1, t, order);
    RunCons(w, s, FlushBegin(t, order), Publishes(t, |order|));
  }

  lemma GatewayPassRuns(w: World, s: State, batch: seq<Cell>)
    requires 0 < w.cellSize && s.workers == map[] && s.drained == {}
    requires Distinct(batch) && CellSet(batch) == s.pending
    ensures var r := Run(w, s, [Drain(CellSet(batch))] + Refreshes(batch));
            && r.Some? && r.value == s.(pending := {}, cache := r.value.cache)
            && r.value.cache.Keys == s.cache.Keys
  {
    hide Run;
    RefreshesRun(w, DoDrain(s, CellSet(batch)).value, batch);
    RunCons(w, s, Drain(CellSet(batch)), Refreshes(batch));
  }

  lemma TickRuns(w: World, s: State, t: Tid, order: seq<Cell>, batch: seq<Cell>)
    requires 0 < w.cellSize && Struct(w, s) && s.workers == map[] && s.drained == {}
    requires Distinct(order) && CellSet(order) == s.dirty
    requires Distinct(batch) && CellSet(batch) == s.pending + (s.dirty * s.cache.Keys)
    ensures var r := Run(w, s, TickRun(t, order, batch));
            && r.Some? && Quiescent(r.value)
            && r.value.store == s.store && r.value.cache.Keys == s.cache.Keys
  {
    hide Run;
    LoneFlushRuns(w, s, t, order);
    var flush := [FlushBegin(t, order)] + Publishes(t, |order|);
    GatewayPassRuns(w, Run(w, s, flush).value, batch);
    RunAppend(w, s, flush, [Drain(CellSet(batch))] + Refreshes(batch));
  }

  /** One uncontended flush and one gateway pass repair everything any interleaving left behind:
      afterwards the whole cache equals the store. */
  lemma OneTickConverges(w: World, evs: seq<Event>, t: Tid, order: seq<Cell>, batch: seq<Cell>)
    requires 0 < w.cellSize && Run(w, INIT, evs).Some?
    requires forall ev :: ev in evs ==> FaultFree(ev)
    requires var s := Run(w, INIT, evs).value;
             && s.workers == map[] && s.drained == {}
             && Distinct(order) && CellSet(order) == s.dirty
             && Distinct(batch) && CellSet(batch) == s.pending + (s.dirty * s.cache.Keys)
    ensures var r := Run(w, INIT, evs + TickRun(t, order, batch));
            && r.Some? && Quiescent(r.value)
            && r.value.store == Run(w, INIT, evs).value.store
            && r.value.cache.Keys == Run(w, INIT, evs).value.cache.Keys
            && forall c :: c in r.value.cache ==> Fresh(r.value, c)
  {
    hide Run;
    var s := Run(w, INIT, evs).value;
    var tick := TickRun(t, order, batch);
    RunKeepsInv(w, INIT, evs);
    TickRuns(w, s, t, order, batch);
    RunAppend(w, INIT, evs, tick);
    TickFaultFree(t, order, batch);
    var r := Run(w, s, tick).value;
    forall c | c in r.cache ensures Fresh(r, c) { QuiescentIsFresh(w, evs + tick, c); }
  }

  lemma TickFaultFree(t: Tid, order: seq<Cell>, batch: seq<Cell>)
    ensures forall ev :: ev in TickRun(t, order, batch) ==> FaultFree(ev)
  {
    PublishesFaultFree(t, |order|);
    RefreshesFaultFree(batch);
  }

  lemma PublishesFaultFree(t: Tid, n: nat)
    ensures forall ev :: ev in Publishes(t, n) ==> FaultFree(ev)
  {
  }

  lemma RefreshesFaultFree(cs: seq<Cell>)
    ensures forall ev :: ev in Refreshes(cs) ==> FaultFree(ev)
  {
  }

  // -------------------------------------------------------------------------------------
  // Faults
  // -------------------------------------------------------------------------------------

  /** The cell every fresh actor spawns in. */
  function SpawnCell(w: World): Cell
    requires 0 < w.cellSize
  {
    CellOf(w, ORIGIN)
  }

  /** A subscribed spawn cell, then actor 1 spawned into it, then a flush about to publish. */
  function SubscribedState(w: World): State
    requires 0 < w.cellSize
  {
    INIT.(cache := map[SpawnCell(w) := map[]])
  }

  function SpawnedState(w: World): State
    requires 0 < w.cellSize
  {
    var c := SpawnCell(w);
    SubscribedState(w).(actors := map[1 := ORIGIN], actorCells := map[1 := c], dirty := {c},
                        store := map[1 := Artifact(c, ORIGIN)])
  }

  const SPAWN: seq<Event> :=
    [Acquire(0, 1), Apply(0, Spawn), PublishArtifact(0, true), RecordCell(0), Mark(0), Release(0)]

  lemma SubscribeRuns(w: World)
    requires 0 < w.cellSize
    ensures Run(w, INIT, [Subscribe(0, SpawnCell(w)), SubscribeSnapshot(0, true)]) == Some(SubscribedState(w))
  {
    hide Run;
    var c := SpawnCell(w);
    var s1 := DoSubscribe(INIT, 0, c).value;
    var s2 := DoSubscribeSnapshot(s1, 0, true).value;
    assert Contents(s1.store, c) == map[];
    assert s2.workers == map[] && s2.cache == map[c := map[]];
    RunOne(w, s1, SubscribeSnapshot(0, true));
    RunCons(w, INIT, Subscribe(0, c), [SubscribeSnapshot(0, true)]);
    assert [Subscribe(0, c)] + [SubscribeSnapshot(0, true)] == [Subscribe(0, c), SubscribeSnapshot(0, true)];
  }

  lemma SpawnSections()
    ensures SPAWN == [Acquire(0, 1)] + SPAWN[1..] && SPAWN[1..] == [Apply(0, Spawn)] + SPAWN[2..]
    ensures SPAWN[2..] == [PublishArtifact(0, true)] + SPAWN[3..] && SPAWN[3..] == [RecordCell(0)] + SPAWN[4..]
    ensures SPAWN[4..] == [Mark(0)] + SPAWN[5..] && SPAWN[5..] == [Release(0)]
  {
  }

  lemma SpawnRuns(w: World)
    requires 0 < w.cellSize
    ensures Run(w, SubscribedState(w), SPAWN) == Some(SpawnedState(w))
  {
    hide Run;
    var s2 := SubscribedState(w);
    var s3 := DoAcquire(s2, 0, 1).value;
    var s4 := DoStore(s3, 0, ORIGIN).value;
    var s5 := DoPublishArtifact(w, s4, 0, true).value;
    var s6 := DoRecordCell(w, s5, 0).value;
    var s7 := DoMark(s6, 0).value;
    var s8 := DoRelease(s7, 0).value;
    RunOne(w, s7, Release(0));
    SpawnSections();
    RunCons(w, s6, Mark(0), SPAWN[5..]);
    RunCons(w, s5, RecordCell(0), SPAWN[4..]);
    RunCons(w, s4, PublishArtifact(0, true), SPAWN[3..]);
    RunCons(w, s3, Apply(0, Spawn), SPAWN[2..]);
    RunCons(w, s2, Acquire(0, 1), SPAWN[1..]);
    assert s8.workers == map[] && s8.stripes == map[] && s8.dirty == {SpawnCell(w)};
  }

  function BumpedState(w: World): State
    requires 0 < w.cellSize
  {
    var c := SpawnCell(w);
    SpawnedState(w).(dirty := {}, epochs := map[c := 1], workers := map[0 := Bumped(c, 1, [])])
  }

  lemma FlushBumpRuns(w: World)
    requires 0 < w.cellSize
    ensures Run(w, SpawnedState(w), [FlushBegin(0, [SpawnCell(w)]), Bump(0)]) == Some(BumpedState(w))
  {
    hide Run;
    var c := SpawnCell(w);
    assert CellSet([c]) == {c};
    assert [c][1..] == [];
    var s9 := DoFlushBegin(SpawnedState(w), 0, [c]).value;
    RunOne(w, s9, Bump(0));
    RunCons(w, SpawnedState(w), FlushBegin(0, [c]), [Bump(0)]);
    var s10 := DoBump(s9, 0).value;
    assert s10.epochs == map[c := 1] && s10.workers == map[0 := Bumped(c, 1, [])];
    assert [FlushBegin(0, [c])] + [Bump(0)] == [FlushBegin(0, [c]), Bump(0)];
  }

  /** What the flush does after the fabric fails its publish. */
  function AfterFault(outcome: Outcome): seq<Event> {
    if outcome == Raised then [Offer(0, Raised)] else [Offer(0, outcome), FlushEnd(0)]
  }

  lemma FaultRuns(w: World, outcome: Outcome)
    requires 0 < w.cellSize && outcome != Done
    ensures Run(w, BumpedState(w), AfterFault(outcome)) == Some(BumpedState(w).(workers := map[]))
  {
    hide Run;
    var s := BumpedState(w);
    var s' := DoOffer(s, 0, outcome).value;
    if outcome == Raised {
      RunOne(w, s, Offer(0, outcome));
    } else {
      RunOne(w, s', FlushEnd(0));
      RunCons(w, s, Offer(0, outcome), [FlushEnd(0)]);
      assert [Offer(0, outcome)] + [FlushEnd(0)] == AfterFault(outcome);
    }
  }

  /** Subscribe the spawn cell, spawn actor 1, and flush into a failing publish. */
  function SpawnThenFail(w: World, outcome: Outcome): seq<Event>
    requires 0 < w.cellSize
  {
    [Subscribe(0, SpawnCell(w)), SubscribeSnapshot(0, true)] + SPAWN
    + [FlushBegin(0, [SpawnCell(w)]), Bump(0)] + AfterFault(outcome)
  }

  /** One failing publish is enough to lose an update for good: nothing is in flight afterwards,
      yet the cached cell misses the spawned actor. */
  lemma FailedPublishLosesUpdate(w: World, outcome: Outcome)
    requires 0 < w.cellSize && outcome != Done
    ensures var r := Run(w, INIT, SpawnThenFail(w, outcome));
            r.Some? && Quiescent(r.value) && !Coherent(r.value)
  {
    hide Run;
    var c := SpawnCell(w);
    var sub, flush := [Subscribe(0, c), SubscribeSnapshot(0, true)], [FlushBegin(0, [c]), Bump(0)];
    SubscribeRuns(w);
    SpawnRuns(w);
    FlushBumpRuns(w);
    FaultRuns(w, outcome);
    RunAppend(w, INIT, sub, SPAWN);
    RunAppend(w, INIT, sub + SPAWN, flush);
    RunAppend(w, INIT, sub + SPAWN + flush, AfterFault(outcome));
    var r := BumpedState(w).(workers := map[]);
    assert 1 in Contents(r.store, c);
    assert c in r.cache && !Fresh(r, c) && !Covered(r, c);
  }
}
