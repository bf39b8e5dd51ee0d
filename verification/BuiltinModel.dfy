/** The built-in models as instances of the replayer's model: an input is kept by actor id in a table of
    fixed size, which no despawn clears and which silently refuses ids once it is full; a step moves an
    actor under the input kept for its id. */
module BuiltinModel {
  import opened Prelude
  import opened Canonical
  import opened ActorMap
  import opened ReplayLoop

  const BUCKETS: nat := 4096

  type Pending = map<int, Event>

  function Put(p: Pending, id: int, e: Event): Pending {
    if id in p || |p| < BUCKETS then p[id := e] else p
  }

  function Get(p: Pending, id: int): Option<Event> { if id in p then Some(p[id]) else None }

  /** The free and the tile model, which differ in their physics. */
  function Builtin(physics: (Option<Event>, Body) -> Body): Model<Pending> {
    Model(map[],
          (p, id, b: Body, e: Event) =>
            if e.Move? then Some((Put(p, id, e), b.(inputTick := e.inputTick, flags := e.flags))) else None,
          (p, id, b) => Some(physics(Get(p, id), b)))
  }

  /** An applied move sets the actor's input tick and flags, keeps its pose, and offers the input to the
      table; a step reads the table and leaves it alone. */
  lemma MoveApplies(physics: (Option<Event>, Body) -> Body, w: Sim<Pending>, e: Event)
    requires e.Move? && e.actorId in w.actors
    ensures var r := Apply(Builtin(physics), w, e);
            && r.Ok? && e.actorId in r.value.actors && r.value.actors.Keys == w.actors.Keys
            && var b, b' := w.actors[e.actorId], r.value.actors[e.actorId];
               && b'.inputTick == e.inputTick && b'.flags == e.flags
               && b'.px == b.px && b'.py == b.py && b'.pz == b.pz && b'.vx == b.vx && b'.vy == b.vy && b'.vz == b.vz
    ensures var r := StepAll(Builtin(physics), w);
            && r.Ok? && r.value.state == w.state && r.value.actors.Keys == w.actors.Keys
            && forall id :: id in w.actors ==> r.value.actors[id] == physics(Get(w.state, id), w.actors[id])
  {
    assert w.actors[e.actorId := Apply(Builtin(physics), w, e).value.actors[e.actorId]].Keys == w.actors.Keys;
  }

  /** The ids that were moved, in the order of their first move. */
  function Movers(es: seq<Event>): seq<int> {
    if es == [] then []
    else
      var before, last := Movers(es[..|es| - 1]), es[|es| - 1];
      if last.Move? && last.actorId !in before then before + [last.actorId] else before
  }

  /** Those the table has room for. */
  function Kept(es: seq<Event>): seq<int> { if |Movers(es)| <= BUCKETS then Movers(es) else Movers(es)[..BUCKETS] }

  function LastMove(es: seq<Event>, id: int): Option<Event> {
    if es == [] then None
    else
      var last := es[|es| - 1];
      if last.Move? && last.actorId == id then Some(last) else LastMove(es[..|es| - 1], id)
  }

  /** The table holds the last move of each kept id and nothing else. */
  ghost predicate Holds(p: Pending, es: seq<Event>) {
    && |p| == |Kept(es)| && (forall id :: id in p <==> id in Kept(es))
    && forall id :: id in p ==> LastMove(es, id) == Some(p[id])
  }

  lemma HoldsMove(p: Pending, es: seq<Event>, e: Event)
    requires Holds(p, es) && e.Move?
    ensures Holds(Put(p, e.actorId, e), es + [e])
  {
    var all := es + [e];
    assert all[..|all| - 1] == es && all[|all| - 1] == e;
    var id, p' := e.actorId, Put(p, e.actorId, e);
    if id in p {
      assert id in Movers(es);
      assert Kept(all) == Kept(es) && p'.Keys == p.Keys;
    } else if |p| < BUCKETS {
      assert Kept(es) == Movers(es) && Kept(all) == Kept(es) + [id];
    } else {
      assert Kept(all) == Kept(es);
    }
  }

  lemma HoldsOther(p: Pending, es: seq<Event>, e: Event)
    requires Holds(p, es) && !e.Move?
    ensures Holds(p, es + [e])
  {
    var all := es + [e];
    assert all[..|all| - 1] == es && all[|all| - 1] == e;
  }

  lemma {:induction false} ApplyHolds(physics: (Option<Event>, Body) -> Body, w: Sim<Pending>, done: seq<Event>,
                                      es: seq<Event>)
    requires Holds(w.state, done) && ApplyAll(Builtin(physics), w, es).Ok?
    ensures Holds(ApplyAll(Builtin(physics), w, es).value.state, done + es)
    decreases |es|
  {
    hide Holds, Put;
    if es == [] {
      assert done + es == done;
    } else {
      if es[0].Move? { HoldsMove(w.state, done, es[0]); } else { HoldsOther(w.state, done, es[0]); }
      assert done + es == done + [es[0]] + es[1..];
      ApplyHolds(physics, Apply(Builtin(physics), w, es[0]).value, done + [es[0]], es[1..]);
    }
  }

  /** Ticks one after the other: the events of each, then a step. */
  function Ticks(m: Model<Pending>, w: Sim<Pending>, ticks: seq<seq<Event>>): Stored<Pending>
    decreases |ticks|
  {
    if ticks == [] then Ok(w)
    else
      var r := TickEffect(m, w, ticks[0]);
      if r.Ok? then Ticks(m, r.value, ticks[1..]) else r
  }

  function Flat(ticks: seq<seq<Event>>): seq<Event> { if ticks == [] then [] else ticks[0] + Flat(ticks[1..]) }

  lemma {:induction false} TicksHold(physics: (Option<Event>, Body) -> Body, w: Sim<Pending>, done: seq<Event>,
                                     ticks: seq<seq<Event>>)
    requires Holds(w.state, done) && Ticks(Builtin(physics), w, ticks).Ok?
    ensures Holds(Ticks(Builtin(physics), w, ticks).value.state, done + Flat(ticks))
    decreases |ticks|
  {
    hide Holds, ApplyAll, Builtin;
    if ticks == [] {
      assert done + [] == done;
    } else {
      ApplyHolds(physics, w, done, ticks[0]);
      TicksHold(physics, TickEffect(Builtin(physics), w, ticks[0]).value, done + ticks[0], ticks[1..]);
      Assoc(done, ticks[0], Flat(ticks[1..]));
    }
  }

  /** Which input a step sees, exactly: after any ticks a replay gets through, the table holds, for the
      first 4096 ids ever moved, the last move of the id, despawned and respawned or not, and nothing for
      any later id. */
  lemma PendingExactly(physics: (Option<Event>, Body) -> Body, ticks: seq<seq<Event>>, id: int)
    requires Ticks(Builtin(physics), Start(Builtin(physics)), ticks).Ok?
    ensures var es := Flat(ticks);
            Get(Ticks(Builtin(physics), Start(Builtin(physics)), ticks).value.state, id)
            == if id in Kept(es) then LastMove(es, id) else None
  {
    hide Ticks, Flat, Kept, LastMove;
    HoldsNothing();
    TicksHold(physics, Start(Builtin(physics)), [], ticks);
    assert [] + Flat(ticks) == Flat(ticks);
  }

  lemma HoldsNothing()
    ensures Holds(map[], [])
  {
  }
}
