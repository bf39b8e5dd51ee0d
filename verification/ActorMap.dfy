/** The replayer's actors as a finite map, and the FNV-1a hash of that map. */
module ActorMap {
  import opened Prelude
  import opened Struct
  import opened Canonical

  const MAX_ACTORS: nat := 65536
  const FNV_OFFSET: nat := 0xcbf29ce484222325
  const FNV_PRIME: nat := 0x100000001b3

  datatype Body = Body(px: int, py: int, pz: int, vx: int, vy: int, vz: int, inputTick: int, flags: int)
  datatype Node = Node(id: int, body: Body)
  type Actors = map<int, Body>

  /** The simulation model: applying an input may change the actor and the model's own state, which keeps
      the last input of every id and outlives the actor; a step moves one actor and only reads that
      state. None is a failure code. */
  datatype Model<!S> = Model(start: S, apply: (S, int, Body, Event) -> Option<(S, Body)>,
                             step: (S, int, Body) -> Option<Body>)

  /** The model's state and the actors. */
  datatype Sim<S> = Sim(state: S, actors: Actors)

  datatype StoreError = AlreadySpawned | CapacityExceeded | NotSpawned | ModelFailed

  type Stored<S> = Result<Sim<S>, StoreError>

  // -------------------------------------------------------------------------------------
  // The finite map
  // -------------------------------------------------------------------------------------

  function Spawned(e: Event): Body
    requires e.Spawn?
  {
    Body(e.px, e.py, e.pz, e.vx, e.vy, e.vz, 0, e.flags)
  }

  function Start<S>(m: Model<S>): Sim<S> { Sim(m.start, map[]) }

  function Apply<S>(m: Model<S>, w: Sim<S>, e: Event): Stored<S> {
    match e
    case Spawn(id, _, _, _, _, _, _, _) =>
      if id in w.actors then Err(AlreadySpawned)
      else if |w.actors| >= MAX_ACTORS then Err(CapacityExceeded)
      else Ok(w.(actors := w.actors[id := Spawned(e)]))
    case Move(id, _, _, _, _, _) =>
      if id !in w.actors then Err(NotSpawned)
      else
        var r := m.apply(w.state, id, w.actors[id], e);
        if r.None? then Err(ModelFailed) else Ok(Sim(r.value.0, w.actors[id := r.value.1]))
    case Despawn(id) => Ok(w.(actors := w.actors - {id}))
  }

  function StepAll<S>(m: Model<S>, w: Sim<S>): Stored<S> {
    var a := w.actors;
    if forall id :: id in a ==> m.step(w.state, id, a[id]).Some? then
      Ok(w.(actors := map id | id in a :: m.step(w.state, id, a[id]).value))
    else Err(ModelFailed)
  }

  // -------------------------------------------------------------------------------------
  // The hash of the map
  // -------------------------------------------------------------------------------------

  predicate Least(s: set<int>, x: int) { x in s && forall y :: y in s ==> x <= y }

  lemma {:induction false} LeastExists(s: set<int>)
    requires s != {}
    ensures exists x :: Least(s, x)
  {
    var x := Pick(s);
    if s == {x} {
      assert Least(s, x);
    } else {
      LeastExists(s - {x});
      var y :| Least(s - {x}, y);
      var z := if y < x then y else x;
      forall k | k in s ensures z <= k {
        assert k != x ==> k in s - {x};
      }
      assert Least(s, z);
    }
  }

  predicate AscendingIds(ids: seq<int>) { forall i, k :: 0 <= i < k < |ids| ==> ids[i] < ids[k] }

  lemma LeastFirst(s: set<int>, x: int, rest: seq<int>)
    requires Least(s, x) && (forall y :: y in rest <==> y in s - {x}) && AscendingIds(rest) && |rest| == |s - {x}|
    ensures AscendingIds([x] + rest) && (forall y :: y in [x] + rest <==> y in s) && |[x] + rest| == |s|
  {
    forall i | 0 <= i < |rest| ensures x < rest[i] { assert rest[i] in rest; }
  }

  /** The ids in ascending order. */
  function SortedIds(s: set<int>): (ids: seq<int>)
    ensures |ids| == |s| && (forall x :: x in ids <==> x in s) && AscendingIds(ids)
  {
    if s == {} then []
    else
      LeastExists(s);
      var x :| Least(s, x);
      var rest := SortedIds(s - {x});
      LeastFirst(s, x, rest);
      [x] + rest
  }

  /** Bitwise exclusive or. */
  function Xor(x: nat, y: nat): nat {
    if x == 0 then y else if y == 0 then x
    else 2 * Xor(x / 2, y / 2) + if x % 2 == y % 2 then 0 else 1
  }

  /** The 64-bit accumulator after one byte. */
  function Mix(h: nat, b: Byte): nat { (Xor(h, b) * FNV_PRIME) % U64 }

  function Fold(h: nat, bs: seq<Byte>): nat
    decreases |bs|
  {
    if bs == [] then h else Fold(Mix(h, bs[0]), bs[1..])
  }

  /** Two's complement, big endian. */
  function Wrapped(w: nat, v: int): seq<Byte> { Digits(w, v % Pow(w)) }

  function ActorBytes(id: int, b: Body): seq<Byte> {
    Wrapped(8, id) + (Wrapped(8, b.px) + (Wrapped(8, b.py) + (Wrapped(8, b.pz) + (Wrapped(8, b.vx) +
      (Wrapped(8, b.vy) + (Wrapped(8, b.vz) + (Wrapped(4, b.inputTick) + Wrapped(4, b.flags))))))))
  }

  function FoldActors(h: nat, a: Actors, ids: seq<int>): nat
    requires forall id :: id in ids ==> id in a
    decreases |ids|
  {
    if ids == [] then h else FoldActors(Fold(h, ActorBytes(ids[0], a[ids[0]])), a, ids[1..])
  }

  /** The hash as a function of the actor map alone. */
  function HashOf(a: Actors): nat {
    FoldActors(Fold(FNV_OFFSET, Wrapped(8, |a|)), a, SortedIds(a.Keys))
  }

  lemma {:induction false} FoldSnoc(h: nat, bs: seq<Byte>, b: Byte)
    ensures Fold(h, bs + [b]) == Mix(Fold(h, bs), b)
    decreases |bs|
  {
    hide Mix;
    if bs == [] {
      assert bs + [b] == [b] && [b][1..] == [];
    } else {
      assert (bs + [b])[1..] == bs[1..] + [b];
      FoldSnoc(Mix(h, bs[0]), bs[1..], b);
    }
  }

  method FoldLoop(h: nat, data: seq<Byte>) returns (r: nat)
    ensures r == Fold(h, data)
  {
    hide Mix;
    r := h;
    for i := 0 to |data|
      invariant r == Fold(h, data[..i])
    {
      FoldSnoc(h, data[..i], data[i]);
      assert data[..i + 1] == data[..i] + [data[i]];
      r := Mix(r, data[i]);
    }
    assert data[..|data|] == data;
  }

  /** What an operation reports and leaves: the specified result on success, the old one on error. */
  ghost predicate Performs<S>(spec: Stored<S>, before: Sim<S>, after: Sim<S>, error: Option<StoreError>) {
    match error
    case None => spec == Ok(after)
    case Some(e) => spec == Err(e) && after == before
  }
}
