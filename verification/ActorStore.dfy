/** The replayer's actor table: a dense array with an id-to-slot map and swap-remove, refining a
    finite map of actors. */
module ActorStore {
  import opened Prelude
  import opened Canonical
  import opened ActorMap

  /** Slots are a bijection between the known ids and the live prefix. */
  ghost predicate Bijection(nodes: seq<Node>, slot: map<int, nat>) {
    && (forall id :: id in slot ==> slot[id] < |nodes| && nodes[slot[id]].id == id)
    && (forall i :: 0 <= i < |nodes| ==> nodes[i].id in slot && slot[nodes[i].id] == i)
  }

  ghost function Abstract(nodes: seq<Node>, slot: map<int, nat>): Actors
    requires Bijection(nodes, slot)
  {
    map id | id in slot :: nodes[slot[id]].body
  }

  lemma {:induction false} LiveCounts(nodes: seq<Node>, slot: map<int, nat>)
    requires Bijection(nodes, slot)
    ensures |slot.Keys| == |nodes| && |Abstract(nodes, slot)| == |nodes|
  {
    assert Abstract(nodes, slot).Keys == slot.Keys;
    if nodes == [] {
      if slot.Keys != {} { var x := Pick(slot.Keys); }
    } else {
      var last := nodes[|nodes| - 1];
      var nodes', slot' := nodes[..|nodes| - 1], slot - {last.id};
      LiveCounts(nodes', slot');
      assert slot.Keys == slot'.Keys + {last.id};
    }
  }

  lemma SpawnBijection(nodes: seq<Node>, slot: map<int, nat>, n: Node)
    requires Bijection(nodes, slot) && n.id !in slot
    ensures Bijection(nodes + [n], slot[n.id := |nodes|])
    ensures Abstract(nodes + [n], slot[n.id := |nodes|]) == Abstract(nodes, slot)[n.id := n.body]
  {
    var a, b := Abstract(nodes + [n], slot[n.id := |nodes|]), Abstract(nodes, slot)[n.id := n.body];
    assert a.Keys == b.Keys;
    forall k | k in a ensures a[k] == b[k] {}
  }

  lemma MoveBijection(nodes: seq<Node>, slot: map<int, nat>, id: int, b: Body)
    requires Bijection(nodes, slot) && id in slot
    ensures var nodes' := nodes[slot[id] := Node(id, b)];
            Bijection(nodes', slot) && Abstract(nodes', slot) == Abstract(nodes, slot)[id := b]
  {
    var nodes' := nodes[slot[id] := Node(id, b)];
    var x, y := Abstract(nodes', slot), Abstract(nodes, slot)[id := b];
    assert x.Keys == y.Keys;
    forall k | k in x ensures x[k] == y[k] {
      assert slot[k] == slot[id] ==> nodes[slot[k]].id == nodes[slot[id]].id;
    }
  }

  /** The table after a removal: the last live node takes the freed slot. */
  ghost function SwapRemoved(nodes: seq<Node>, slot: map<int, nat>, id: int): (seq<Node>, map<int, nat>)
    requires Bijection(nodes, slot) && id in slot
  {
    var i, last := slot[id], |nodes| - 1;
    if i == last then (nodes[..last], slot - {id})
    else (nodes[i := nodes[last]][..last], (slot - {id})[nodes[last].id := i])
  }

  lemma DespawnBijection(nodes: seq<Node>, slot: map<int, nat>, id: int)
    requires Bijection(nodes, slot) && id in slot
    ensures var (nodes', slot') := SwapRemoved(nodes, slot, id);
            Bijection(nodes', slot') && Abstract(nodes', slot') == Abstract(nodes, slot) - {id}
  {
    var (nodes', slot') := SwapRemoved(nodes, slot, id);
    var i, last := slot[id], |nodes| - 1;
    assert nodes[last].id == id <==> i == last;
    forall k | 0 <= k < |nodes'| ensures nodes'[k].id in slot' && slot'[nodes'[k].id] == k {
      assert nodes'[k] == if k == i then nodes[last] else nodes[k];
    }
    var a, b := Abstract(nodes', slot'), Abstract(nodes, slot) - {id};
    assert a.Keys == b.Keys;
    forall k | k in a ensures a[k] == b[k] {
      assert nodes[slot[k]].id == k;
    }
  }

  lemma SteppedBijection<S>(m: Model<S>, st: S, nodes: seq<Node>, nodes': seq<Node>, slot: map<int, nat>)
    requires Bijection(nodes, slot) && |nodes'| == |nodes|
    requires forall k :: 0 <= k < |nodes| ==>
               m.step(st, nodes[k].id, nodes[k].body) == Some(nodes'[k].body) && nodes'[k].id == nodes[k].id
    ensures Bijection(nodes', slot)
    ensures StepAll(m, Sim(st, Abstract(nodes, slot))) == Ok(Sim(st, Abstract(nodes', slot)))
  {
    var a, b := Abstract(nodes, slot), Abstract(nodes', slot);
    forall id | id in a ensures m.step(st, id, a[id]) == Some(b[id]) {}
    var c := StepAll(m, Sim(st, a)).value.actors;
    assert b.Keys == c.Keys;
    forall id | id in c ensures b[id] == c[id] {}
    assert b == c;
  }

  /** A step of all is a step of each. */
  lemma SteppedEach<S>(m: Model<S>, w: Sim<S>)
    requires StepAll(m, w).Ok?
    ensures StepAll(m, w).value.state == w.state && StepAll(m, w).value.actors.Keys == w.actors.Keys
    ensures forall id :: id in w.actors ==> m.step(w.state, id, w.actors[id]) == Some(StepAll(m, w).value.actors[id])
  {
  }

  lemma StepFails<S>(m: Model<S>, st: S, nodes: seq<Node>, slot: map<int, nat>, i: nat)
    requires Bijection(nodes, slot) && i < |nodes| && m.step(st, nodes[i].id, nodes[i].body).None?
    ensures StepAll(m, Sim(st, Abstract(nodes, slot))) == Err(ModelFailed)
  {
    assert Abstract(nodes, slot)[nodes[i].id] == nodes[i].body;
  }

  /** A model instance: its functions and the state it keeps between calls. */
  class Instance<S> {
    const model: Model<S>
    var state: S

    constructor (model: Model<S>)
      ensures this.model == model && state == model.start
    {
      this.model := model;
      state := model.start;
    }
  }

  /** Looking an actor up in the map and in the buffer. */
  lemma Looks(nodes: seq<Node>, slot: map<int, nat>)
    requires Bijection(nodes, slot)
    ensures Abstract(nodes, slot).Keys == slot.Keys
    ensures forall id :: id in slot ==> slot[id] < |nodes| && nodes[slot[id]].body == Abstract(nodes, slot)[id]
  {
  }

  lemma FoldStart(a: Actors)
    ensures HashOf(a) == FoldActors(Fold(FNV_OFFSET, Wrapped(8, |SortedIds(a.Keys)|)), a, SortedIds(a.Keys)[0..])
  {
    hide Fold, Wrapped, FoldActors, SortedIds;
    assert SortedIds(a.Keys)[0..] == SortedIds(a.Keys);
    assert |a| == |a.Keys|;
  }

  lemma FoldNext(h: nat, a: Actors, ids: seq<int>, i: nat)
    requires i < |ids| && forall id :: id in ids ==> id in a
    ensures FoldActors(h, a, ids[i..]) == FoldActors(Fold(h, ActorBytes(ids[i], a[ids[i]])), a, ids[i + 1..])
  {
    hide Fold, ActorBytes;
    assert ids[i..][1..] == ids[i + 1..];
  }

  lemma FoldNone(h: nat, a: Actors, ids: seq<int>)
    requires ids == []
    ensures FoldActors(h, a, ids) == h
  {
  }

  class ActorStore {
    var buf: array<Node>
    var slot: map<int, nat>
    var live: nat

    ghost predicate Valid()
      reads this, buf
    {
      buf.Length == MAX_ACTORS && live <= buf.Length && Bijection(buf[..live], slot)
    }

    ghost function View(): Actors
      requires Valid()
      reads this, buf
    {
      Abstract(buf[..live], slot)
    }

    constructor ()
      ensures Valid() && View() == map[] && fresh(buf)
    {
      buf := new Node[MAX_ACTORS];
      slot, live := map[], 0;
    }

    /** The model's state and the actors. */
    ghost function With<S>(sim: Instance<S>): Sim<S>
      requires Valid()
      reads this, buf, sim
    {
      Sim(sim.state, View())
    }

    method Spawn<S>(ghost sim: Instance<S>, e: Event) returns (error: Option<StoreError>)
      requires Valid() && e.Spawn?
      modifies this, buf
      ensures Valid() && buf == old(buf)
      ensures Performs(Apply(sim.model, old(With(sim)), e), old(With(sim)), With(sim), error)
      ensures error == if e.actorId in old(View()) then Some(AlreadySpawned)
                       else if |old(View())| >= 65536 then Some(CapacityExceeded) else None
      ensures error == None ==> View() == old(View())[e.actorId := Body(e.px, e.py, e.pz, e.vx, e.vy, e.vz, 0, e.flags)]
    {
      LiveCounts(buf[..live], slot);
      if e.actorId in slot {
        return Some(AlreadySpawned);
      }
      if live >= MAX_ACTORS {
        return Some(CapacityExceeded);
      }
      SpawnBijection(buf[..live], slot, Node(e.actorId, Spawned(e)));
      buf[live] := Node(e.actorId, Spawned(e));
      assert buf[..live + 1] == old(buf[..live]) + [Node(e.actorId, Spawned(e))];
      slot := slot[e.actorId := live];
      live := live + 1;
      return None;
    }

    method ApplyMove<S>(sim: Instance<S>, e: Event) returns (error: Option<StoreError>)
      requires Valid() && e.Move?
      modifies this, buf, sim
      ensures Valid() && buf == old(buf)
      ensures Performs(Apply(sim.model, old(With(sim)), e), old(With(sim)), With(sim), error)
      ensures error == Some(NotSpawned) <==> e.actorId !in old(View())
      ensures error == None ==>
                && e.actorId in old(View())
                && var r := sim.model.apply(old(sim.state), e.actorId, old(View())[e.actorId], e);
                   r == Some((sim.state, View()[e.actorId])) && View() == old(View())[e.actorId := r.value.1]
    {
      if e.actorId !in slot {
        return Some(NotSpawned);
      }
      var i := slot[e.actorId];
      var r := sim.model.apply(sim.state, e.actorId, buf[i].body, e);
      if r.None? {
        return Some(ModelFailed);
      }
      var (state, b) := r.value;
      MoveBijection(buf[..live], slot, e.actorId, b);
      sim.state := state;
      buf[i] := Node(e.actorId, b);
      assert buf[..live] == old(buf[..live])[i := Node(e.actorId, b)];
      return None;
    }

    method Despawn(e: Event)
      requires Valid() && e.Despawn?
      modifies this, buf
      ensures Valid() && buf == old(buf)
      ensures View() == old(View()) - {e.actorId}
    {
      if e.actorId !in slot {
        assert View() - {e.actorId} == View();
        return;
      }
      DespawnBijection(buf[..live], slot, e.actorId);
      var i, last := slot[e.actorId], live - 1;
      slot := slot - {e.actorId};
      if i != last {
        buf[i] := buf[last];
        slot := slot[buf[i].id := i];
      }
      assert buf[..last] == (if i == last then old(buf[..live]) else old(buf[..live])[i := old(buf[last])])[..last];
      live := last;
    }

    method ApplyEvent<S>(sim: Instance<S>, e: Event) returns (error: Option<StoreError>)
      requires Valid()
      modifies this, buf, sim
      ensures Valid() && buf == old(buf)
      ensures Performs(Apply(sim.model, old(With(sim)), e), old(With(sim)), With(sim), error)
    {
      match e
      case Spawn(_, _, _, _, _, _, _, _) => error := Spawn(sim, e);
      case Move(_, _, _, _, _, _) => error := ApplyMove(sim, e);
      case Despawn(_) =>
        Despawn(e);
        error := None;
    }

    /** One step of every live actor, in slot order; a failure aborts the replay. */
    method Step<S>(sim: Instance<S>) returns (error: Option<StoreError>)
      requires Valid()
      modifies this, buf
      ensures buf == old(buf)
      ensures match error
              case None => Valid() && StepAll(sim.model, old(With(sim))) == Ok(With(sim))
              case Some(e) => StepAll(sim.model, old(With(sim))) == Err(e)
      ensures error == None ==>
                && View().Keys == old(View()).Keys
                && forall id :: id in View() ==> sim.model.step(sim.state, id, old(View())[id]) == Some(View()[id])
    {
      hide StepAll, Bijection;
      var m, st := sim.model, sim.state;
      ghost var before := buf[..live];
      for i := 0 to live
        invariant buf == old(buf) && live == old(live) && slot == old(slot)
        invariant forall k :: 0 <= k < i ==>
                    m.step(st, before[k].id, before[k].body) == Some(buf[k].body) && buf[k].id == before[k].id
        invariant forall k :: i <= k < live ==> buf[k] == before[k]
      {
        var b := m.step(st, buf[i].id, buf[i].body);
        if b.None? {
          StepFails(m, st, before, slot, i);
          return Some(ModelFailed);
        }
        buf[i] := Node(buf[i].id, b.value);
      }
      SteppedBijection(m, st, before, buf[..live], slot);
      SteppedEach(m, Sim(st, Abstract(before, slot)));
      return None;
    }

    method Hash() returns (h: nat)
      requires Valid()
      ensures h == HashOf(View())
    {
      hide Fold, ActorBytes, Wrapped, FoldActors, HashOf, Abstract, Bijection, SortedIds;
      ghost var a := View();
      Looks(buf[..live], slot);
      var ordered := SortedIds(slot.Keys);
      FoldStart(a);
      h := FoldLoop(FNV_OFFSET, Wrapped(8, |ordered|));
      for i := 0 to |ordered|
        invariant HashOf(a) == FoldActors(h, a, ordered[i..])
      {
        var id := ordered[i];
        FoldNext(h, a, ordered, i);
        h := FoldLoop(h, ActorBytes(id, buf[slot[id]].body));
      }
      FoldNone(h, a, ordered[|ordered|..]);
    }
  }
}
