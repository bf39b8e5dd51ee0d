/** The replay loop: events applied at their tick, one model step per tick, hashes at the hash
    ticks, and what eliding idle ticks preserves. */
module ReplayLoop {
  import opened Prelude
  import opened Struct
  import opened Canonical
  import opened ReplayFormat
  import opened ReplayReader
  import opened ReplayLaw
  import opened ActorMap
  import opened ActorStore

  type Hashes = seq<(int, nat)>
  type Outcome = Result<Hashes, StoreError>

  /** The model, the tick limit and the hash cadence of one replay. */
  datatype Setup<!S> = Setup(model: Model<S>, limit: int, every: int)

  // -------------------------------------------------------------------------------------
  // Meaning of a record: what happens at each tick
  // -------------------------------------------------------------------------------------

  function ApplyAll<S>(m: Model<S>, a: Sim<S>, es: seq<Event>): Stored<S>
    decreases |es|
  {
    if es == [] then Ok(a)
    else
      var r := Apply(m, a, es[0]);
      if r.Ok? then ApplyAll(m, r.value, es[1..]) else r
  }

  /** The events of tick `t`. */
  function At(groups: seq<TickRecord>, t: int): seq<Event> {
    if groups == [] then []
    else (if groups[0].tick == t then groups[0].events else []) + At(groups[1..], t)
  }

  ghost function HashAt<S>(s: Setup<S>, t: int, a: Sim<S>): Hashes {
    if s.every > 0 && t % s.every == 0 then [(t, HashOf(a.actors))] else []
  }

  function TickEffect<S>(m: Model<S>, a: Sim<S>, es: seq<Event>): Stored<S> {
    var r := ApplyAll(m, a, es);
    if r.Ok? then StepAll(m, r.value) else r
  }

  /** The run a record means: at every tick below the limit, that tick's events, then a step. */
  ghost function Timeline<S>(s: Setup<S>, groups: seq<TickRecord>, a: Sim<S>, t: int): Outcome
    decreases s.limit - t
  {
    if t >= s.limit then Ok([])
    else
      var r := TickEffect(s.model, a, At(groups, t));
      if r.Err? then Err(r.error)
      else
        var rest := Timeline(s, groups, r.value, t + 1);
        if rest.Err? then rest else Ok(HashAt(s, t, r.value) + rest.value)
  }

  /** Hash lines are at the multiples of the cadence from `t` up to the limit, ascending. */
  lemma {:induction false} HashTicks<S>(s: Setup<S>, groups: seq<TickRecord>, a: Sim<S>, t: int)
    requires Timeline(s, groups, a, t).Ok?
    ensures var hs := Timeline(s, groups, a, t).value;
            && (forall i :: 0 <= i < |hs| ==> s.every > 0 && t <= hs[i].0 < s.limit && hs[i].0 % s.every == 0)
            && (forall i, k :: 0 <= i < k < |hs| ==> hs[i].0 < hs[k].0)
            && (forall u :: s.every > 0 && t <= u < s.limit && u % s.every == 0 ==> Hashed(hs, u))
    decreases s.limit - t
  {
    hide TickEffect, At, HashOf;
    if t < s.limit {
      var r := TickEffect(s.model, a, At(groups, t)).value;
      HashTicks(s, groups, r, t + 1);
      var rest := Timeline(s, groups, r, t + 1).value;
      var hs := HashAt(s, t, r) + rest;
      forall u | s.every > 0 && t <= u < s.limit && u % s.every == 0 ensures Hashed(hs, u) {
        if u == t {
          assert hs[0].0 == u;
        } else {
          assert Hashed(rest, u);
          var i :| 0 <= i < |rest| && rest[i].0 == u;
          assert hs[|HashAt(s, t, r)| + i].0 == u;
        }
      }
    }
  }

  ghost predicate Hashed(hs: Hashes, t: int) { exists i :: 0 <= i < |hs| && hs[i].0 == t }

  // -------------------------------------------------------------------------------------
  // The loop
  // -------------------------------------------------------------------------------------

  /** What the inner loop consumes at tick `t`: the leading groups of that tick. */
  function Due(groups: seq<TickRecord>, t: int): (n: nat)
    ensures n <= |groups|
  {
    if groups == [] || groups[0].tick != t then 0 else 1 + Due(groups[1..], t)
  }

  function Concat(groups: seq<TickRecord>): seq<Event> {
    if groups == [] then [] else groups[0].events + Concat(groups[1..])
  }

  /** The loop from tick `t` on, with these groups still to come. */
  ghost function Loop<S>(s: Setup<S>, groups: seq<TickRecord>, a: Sim<S>, t: int): Outcome
    decreases s.limit - t
  {
    if t >= s.limit then Ok([])
    else
      var n := Due(groups, t);
      var r := TickEffect(s.model, a, Concat(groups[..n]));
      if r.Err? then Err(r.error)
      else
        var rest := Loop(s, groups[n..], r.value, t + 1);
        if rest.Err? then rest else Ok(HashAt(s, t, r.value) + rest.value)
  }

  lemma {:induction false} NotAt(groups: seq<TickRecord>, t: int)
    requires forall g :: g in groups ==> g.tick != t
    ensures At(groups, t) == []
  {
    if groups != [] { NotAt(groups[1..], t); }
  }

  /** With ascending ticks not before `t`, at most the first group is due. */
  lemma DueFirst(groups: seq<TickRecord>, t: int)
    requires StrictTicks(groups)
    ensures Due(groups, t) == if groups != [] && groups[0].tick == t then 1 else 0
  {
    if |groups| > 1 { assert groups[0].tick < groups[1].tick && groups[1..][0] == groups[1]; }
  }

  lemma LaterTicks(groups: seq<TickRecord>)
    requires StrictTicks(groups) && groups != []
    ensures forall g :: g in groups[1..] ==> groups[0].tick < g.tick
    ensures forall g :: g in groups ==> groups[0].tick <= g.tick
  {
  }

  /** The inner loop takes exactly the events of `t`, and the rest keep their meaning. */
  lemma DueIsAt(groups: seq<TickRecord>, t: int, u: int)
    requires StrictTicks(groups) && forall g :: g in groups ==> t <= g.tick
    requires t < u
    ensures Concat(groups[..Due(groups, t)]) == At(groups, t)
    ensures forall g :: g in groups[Due(groups, t)..] ==> t + 1 <= g.tick
    ensures At(groups[Due(groups, t)..], u) == At(groups, u)
  {
    hide StrictTicks, Due;
    DueFirst(groups, t);
    if groups != [] {
      LaterTicks(groups);
      assert groups[0] in groups;
      if groups[0].tick == t {
        NotAt(groups[1..], t);
        assert groups[..1] == [groups[0]] && groups[..1][1..] == [];
        assert groups[0].events + [] == groups[0].events;
      } else {
        NotAt(groups, t);
        assert groups[0..] == groups && groups[..0] == [];
      }
    }
  }

  lemma {:induction false} SameTimeline<S>(s: Setup<S>, a: seq<TickRecord>, b: seq<TickRecord>, m: Sim<S>, t: int)
    requires forall u :: t <= u < s.limit ==> At(a, u) == At(b, u)
    ensures Timeline(s, a, m, t) == Timeline(s, b, m, t)
    decreases s.limit - t
  {
    hide TickEffect, HashAt, At;
    if t < s.limit {
      var r := TickEffect(s.model, m, At(a, t));
      assert At(a, t) == At(b, t);
      if r.Ok? { SameTimeline(s, a, b, r.value, t + 1); }
    }
  }

  /** The loop means what the record means: each tick's events applied exactly once, at that tick,
      in stored order, for every strictly ascending record. */
  lemma {:induction false} LoopIsTimeline<S>(s: Setup<S>, groups: seq<TickRecord>, a: Sim<S>, t: int)
    requires StrictTicks(groups) && forall g :: g in groups ==> t <= g.tick
    ensures Loop(s, groups, a, t) == Timeline(s, groups, a, t)
    decreases s.limit - t
  {
    hide TickEffect, HashAt, At, Concat, Due;
    if t < s.limit {
      var n := Due(groups, t);
      forall u | t < u ensures At(groups[n..], u) == At(groups, u) { DueIsAt(groups, t, u); }
      DueIsAt(groups, t, t + 1);
      var r := TickEffect(s.model, a, At(groups, t));
      if r.Ok? {
        assert StrictTicks(groups[n..]);
        LoopIsTimeline(s, groups[n..], r.value, t + 1);
        SameTimeline(s, groups[n..], groups, r.value, t + 1);
      }
    }
  }

  // -------------------------------------------------------------------------------------
  // Idle-tick elision
  // -------------------------------------------------------------------------------------

  /** The record without its empty ticks. */
  function Elided(groups: seq<TickRecord>): seq<TickRecord> {
    if groups == [] then []
    else (if groups[0].events == [] then [] else [groups[0]]) + Elided(groups[1..])
  }

  lemma {:induction false} ElidedKeeps(groups: seq<TickRecord>, t: int)
    ensures At(Elided(groups), t) == At(groups, t)
    ensures forall g :: g in Elided(groups) ==> g in groups && g.events != []
  {
    if groups != [] {
      ElidedKeeps(groups[1..], t);
      if groups[0].events != [] {
        assert ([groups[0]] + Elided(groups[1..]))[1..] == Elided(groups[1..]);
      } else {
        assert [] + Elided(groups[1..]) == Elided(groups[1..]);
        assert [] + At(groups[1..], t) == At(groups[1..], t);
      }
    }
  }

  lemma {:induction false} ElidedStrict(groups: seq<TickRecord>)
    requires StrictTicks(groups)
    ensures StrictTicks(Elided(groups))
  {
    if groups != [] {
      ElidedStrict(groups[1..]);
      var rest := Elided(groups[1..]);
      ElidedKeeps(groups[1..], 0);
      if groups[0].events != [] {
        StrictTicksCons(groups[0], rest);
        if rest != [] {
          assert rest[0] in rest && rest[0] in groups[1..];
        }
      } else {
        assert [] + rest == rest;
      }
    }
  }

  /** Eliding idle ticks preserves meaning: under one tick limit a record and its elision replay to
      the same hashes or the same failure. */
  lemma ElisionPreserves<S>(s: Setup<S>, groups: seq<TickRecord>)
    requires StrictTicks(groups) && forall g :: g in groups ==> 0 <= g.tick
    ensures Loop(s, Elided(groups), Start(s.model), 0) == Loop(s, groups, Start(s.model), 0)
  {
    hide Elided, At, Loop, Timeline;
    ElidedStrict(groups);
    ElidedKeeps(groups, 0);
    LoopIsTimeline(s, groups, Start(s.model), 0);
    LoopIsTimeline(s, Elided(groups), Start(s.model), 0);
    forall u ensures At(Elided(groups), u) == At(groups, u) { ElidedKeeps(groups, u); }
    SameTimeline(s, Elided(groups), groups, Start(s.model), 0);
  }

  /** Every tick below the limit written out. */
  function Filled(groups: seq<TickRecord>, t: int, limit: int): seq<TickRecord>
    decreases limit - t
  {
    if t >= limit then [] else [TickRecord(t, At(groups, t))] + Filled(groups, t + 1, limit)
  }

  lemma {:induction false} FilledKeeps(groups: seq<TickRecord>, t: int, limit: int, u: int)
    ensures StrictTicks(Filled(groups, t, limit))
    ensures forall g :: g in Filled(groups, t, limit) ==> t <= g.tick
    ensures At(Filled(groups, t, limit), u) == if t <= u < limit then At(groups, u) else []
    decreases limit - t
  {
    hide StrictTicks;
    if t < limit {
      FilledKeeps(groups, t + 1, limit, u);
      var rest := Filled(groups, t + 1, limit);
      var first := TickRecord(t, At(groups, t));
      assert ([first] + rest)[1..] == rest;
      StrictTicksCons(first, rest);
      assert rest != [] ==> rest[0] in rest;
    } else {
      StrictTicksNil();
    }
  }

  /** An elided record replays like the one with every tick written out. */
  lemma FillingPreserves<S>(s: Setup<S>, groups: seq<TickRecord>)
    requires StrictTicks(groups) && forall g :: g in groups ==> 0 <= g.tick
    ensures Loop(s, Filled(groups, 0, s.limit), Start(s.model), 0) == Loop(s, groups, Start(s.model), 0)
  {
    hide Filled, At, Loop, Timeline, StrictTicks;
    var full := Filled(groups, 0, s.limit);
    FilledKeeps(groups, 0, s.limit, 0);
    LoopIsTimeline(s, groups, Start(s.model), 0);
    LoopIsTimeline(s, full, Start(s.model), 0);
    forall u | 0 <= u < s.limit ensures At(full, u) == At(groups, u) { FilledKeeps(groups, 0, s.limit, u); }
    SameTimeline(s, full, groups, Start(s.model), 0);
  }

  /** A lower limit stops earlier: its hashes are the first ones. With the default limit, one past
      the last recorded tick, an elided record whose idle tail is gone therefore emits a beginning
      of the hashes, not all of them. */
  lemma {:induction false} LimitIsPrefix<S>(s: Setup<S>, limit: int, groups: seq<TickRecord>, a: Sim<S>, t: int)
    requires limit <= s.limit && Timeline(s, groups, a, t).Ok?
    ensures Timeline(s.(limit := limit), groups, a, t).Ok?
    ensures Timeline(s.(limit := limit), groups, a, t).value <= Timeline(s, groups, a, t).value
    decreases s.limit - t
  {
    hide TickEffect, HashOf, At;
    if t < limit {
      var r := TickEffect(s.model, a, At(groups, t));
      LimitIsPrefix(s, limit, groups, r.value, t + 1);
    }
  }

  // -------------------------------------------------------------------------------------
  // The procedure
  // -------------------------------------------------------------------------------------

  lemma {:induction false} ApplyAllAppend<S>(m: Model<S>, a: Sim<S>, xs: seq<Event>, ys: seq<Event>)
    ensures ApplyAll(m, a, xs + ys)
            == if ApplyAll(m, a, xs).Ok? then ApplyAll(m, ApplyAll(m, a, xs).value, ys) else ApplyAll(m, a, xs)
    decreases |xs|
  {
    hide Apply;
    if xs == [] {
      assert xs + ys == ys;
    } else {
      assert (xs + ys)[1..] == xs[1..] + ys;
      var r := Apply(m, a, xs[0]);
      if r.Ok? { ApplyAllAppend(m, r.value, xs[1..], ys); }
    }
  }

  method ApplyGroup<S>(sim: Instance<S>, store: ActorStore, es: seq<Event>) returns (error: Option<StoreError>)
    requires store.Valid()
    modifies store, store.buf, sim
    ensures store.buf == old(store.buf)
    ensures match error
            case None => store.Valid() && ApplyAll(sim.model, old(store.With(sim)), es) == Ok(store.With(sim))
            case Some(e) => ApplyAll(sim.model, old(store.With(sim)), es) == Err(e)
  {
    hide Apply;
    ghost var spec := ApplyAll(sim.model, store.With(sim), es);
    for i := 0 to |es|
      invariant store.buf == old(store.buf) && store.Valid()
      invariant spec == ApplyAll(sim.model, store.With(sim), es[i..])
    {
      assert es[i..][1..] == es[i + 1..];
      error := store.ApplyEvent(sim, es[i]);
      if error.Some? {
        return;
      }
    }
    error := None;
  }

  /** The inner loop: the groups due at tick `t`, from `index` on. */
  method ApplyDue<S>(sim: Instance<S>, store: ActorStore, groups: seq<TickRecord>, index: nat, t: int)
    returns (error: Option<StoreError>, next: nat)
    requires store.Valid() && index <= |groups|
    modifies store, store.buf, sim
    ensures store.buf == old(store.buf)
    ensures var n := Due(groups[index..], t);
            var spec := ApplyAll(sim.model, old(store.With(sim)), Concat(groups[index..][..n]));
            match error
            case None => store.Valid() && spec == Ok(store.With(sim)) && next == index + n
            case Some(e) => spec == Err(e)
  {
    hide ApplyAll;
    next := index;
    ghost var spec := ApplyAll(sim.model, store.With(sim), Concat(groups[index..][..Due(groups[index..], t)]));
    while next < |groups| && groups[next].tick == t
      invariant index <= next <= |groups| && store.buf == old(store.buf) && store.Valid()
      invariant next + Due(groups[next..], t) == index + Due(groups[index..], t)
      invariant spec == ApplyAll(sim.model, store.With(sim), Concat(groups[next..][..Due(groups[next..], t)]))
    {
      ghost var rest := groups[next..];
      ghost var n := Due(rest, t);
      assert rest[1..] == groups[next + 1..];
      assert rest[..n][1..] == rest[1..][..n - 1];
      ApplyAllAppend(sim.model, store.With(sim), rest[0].events, Concat(rest[1..][..n - 1]));
      error := ApplyGroup(sim, store, groups[next].events);
      if error.Some? {
        return;
      }
      next := next + 1;
    }
    NoEvents(sim.model, store.With(sim));
    error := None;
  }

  lemma NoEvents<S>(m: Model<S>, a: Sim<S>)
    ensures ApplyAll(m, a, []) == Ok(a)
  {
  }

  /** The replay of a record, over the actor table. */
  method ReplayRecord<S>(s: Setup<S>, groups: seq<TickRecord>) returns (r: Outcome)
    ensures r == Loop(s, groups, Start(s.model), 0)
  {
    hide ApplyAll, StepAll, HashOf, Due, Concat, Loop;
    var sim := new Instance(s.model);
    var store := new ActorStore();
    var index := 0;
    var hashes: Hashes := [];
    var t := 0;
    ghost var spec := Loop(s, groups, Start(s.model), 0);
    assert groups[0..] == groups;
    assert spec == Prefixed([], Loop(s, groups[index..], store.With(sim), t)) by {
      if spec.Ok? { assert [] + spec.value == spec.value; }
    }
    while t < s.limit
      invariant store.Valid() && fresh(sim) && fresh(store) && fresh(store.buf) && sim.model == s.model
      invariant index <= |groups|
      invariant spec == Prefixed(hashes, Loop(s, groups[index..], store.With(sim), t))
    {
      ghost var a := store.With(sim);
      ghost var rest := groups[index..];
      ghost var before := hashes;
      var error: Option<StoreError>;
      var next: nat;
      error, next := ApplyDue(sim, store, groups, index, t);
      if error.Some? {
        LoopFails(s, rest, a, t, error.value);
        return Err(error.value);
      }
      assert rest[Due(rest, t)..] == groups[next..];
      index := next;
      error := store.Step(sim);
      if error.Some? {
        LoopFails(s, rest, a, t, error.value);
        return Err(error.value);
      }
      if s.every > 0 && t % s.every == 0 {
        var h := store.Hash();
        hashes := hashes + [(t, h)];
      }
      LoopStep(s, rest, a, t, store.With(sim), before, hashes);
      t := t + 1;
    }
    LoopEnds(s, groups[index..], store.With(sim), t);
    assert hashes + [] == hashes;
    return Ok(hashes);
  }

  ghost function Prefixed(hs: Hashes, r: Outcome): Outcome { if r.Err? then r else Ok(hs + r.value) }

  lemma LoopEnds<S>(s: Setup<S>, groups: seq<TickRecord>, a: Sim<S>, t: int)
    requires t >= s.limit
    ensures Loop(s, groups, a, t) == Ok([])
  {
  }

  lemma LoopFails<S>(s: Setup<S>, groups: seq<TickRecord>, a: Sim<S>, t: int, e: StoreError)
    requires t < s.limit && TickEffect(s.model, a, Concat(groups[..Due(groups, t)])) == Err(e)
    ensures Loop(s, groups, a, t) == Err(e)
  {
  }

  lemma LoopStep<S>(s: Setup<S>, groups: seq<TickRecord>, a: Sim<S>, t: int, a': Sim<S>, before: Hashes, after: Hashes)
    requires t < s.limit && TickEffect(s.model, a, Concat(groups[..Due(groups, t)])) == Ok(a')
    requires after == before + HashAt(s, t, a')
    ensures Prefixed(before, Loop(s, groups, a, t)) == Prefixed(after, Loop(s, groups[Due(groups, t)..], a', t + 1))
  {
    hide TickEffect, HashAt;
    var rest := Loop(s, groups[Due(groups, t)..], a', t + 1);
    if rest.Ok? { assert before + (HashAt(s, t, a') + rest.value) == after + rest.value; }
  }

  // -------------------------------------------------------------------------------------
  // Text records
  // -------------------------------------------------------------------------------------

  type Pair = (int, Event)

  function InsertPair(p: Pair, ps: seq<Pair>): seq<Pair> {
    if ps == [] || p.0 <= ps[0].0 then [p] + ps else [ps[0]] + InsertPair(p, ps[1..])
  }

  /** A stable sort by tick. */
  function SortPairs(ps: seq<Pair>): seq<Pair> {
    if ps == [] then [] else InsertPair(ps[0], SortPairs(ps[1..]))
  }

  /** Runs of equal ticks. */
  function GroupRuns(ps: seq<Pair>): seq<TickRecord> {
    if ps == [] then []
    else
      var rest := GroupRuns(ps[1..]);
      if rest != [] && rest[0].tick == ps[0].0 then [TickRecord(ps[0].0, [ps[0].1] + rest[0].events)] + rest[1..]
      else [TickRecord(ps[0].0, [ps[0].1])] + rest
  }

  function TextGroups(ps: seq<Pair>): seq<TickRecord> { GroupRuns(SortPairs(ps)) }

  /** The events of tick `t`, in file order. */
  function EventsAt(ps: seq<Pair>, t: int): seq<Event> {
    if ps == [] then [] else (if ps[0].0 == t then [ps[0].1] else []) + EventsAt(ps[1..], t)
  }

  predicate AscendingPairs(ps: seq<Pair>) { forall i, k :: 0 <= i < k < |ps| ==> ps[i].0 <= ps[k].0 }

  lemma {:induction false} InsertPairSorts(p: Pair, ps: seq<Pair>)
    requires AscendingPairs(ps)
    ensures AscendingPairs(InsertPair(p, ps))
    ensures forall q :: q in InsertPair(p, ps) ==> q == p || q in ps
  {
    if ps != [] && ps[0].0 < p.0 {
      InsertPairSorts(p, ps[1..]);
      var rest := InsertPair(p, ps[1..]);
      forall q | q in rest ensures ps[0].0 <= q.0 { assert q == p || q in ps[1..]; }
    }
  }

  lemma EventsAtCons(p: Pair, ps: seq<Pair>, t: int)
    ensures EventsAt([p] + ps, t) == (if p.0 == t then [p.1] else []) + EventsAt(ps, t)
  {
    assert ([p] + ps)[1..] == ps;
  }

  lemma {:induction false} InsertPairStable(p: Pair, ps: seq<Pair>, t: int)
    ensures EventsAt(InsertPair(p, ps), t) == (if p.0 == t then [p.1] else []) + EventsAt(ps, t)
  {
    if ps == [] || p.0 <= ps[0].0 {
      EventsAtCons(p, ps, t);
    } else {
      InsertPairStable(p, ps[1..], t);
      var rest := InsertPair(p, ps[1..]);
      EventsAtCons(ps[0], rest, t);
      if p.0 == t {
        assert EventsAt(ps, t) == EventsAt(ps[1..], t);
      } else {
        assert [] + EventsAt(ps, t) == EventsAt(ps, t);
        assert [] + EventsAt(ps[1..], t) == EventsAt(ps[1..], t);
      }
    }
  }

  lemma {:induction false} SortPairsKeeps(ps: seq<Pair>, t: int)
    ensures AscendingPairs(SortPairs(ps)) && EventsAt(SortPairs(ps), t) == EventsAt(ps, t)
  {
    if ps != [] {
      SortPairsKeeps(ps[1..], t);
      InsertPairSorts(ps[0], SortPairs(ps[1..]));
      InsertPairStable(ps[0], SortPairs(ps[1..]), t);
    }
  }

  lemma {:induction false} GroupRunsKeeps(ps: seq<Pair>, t: int)
    requires AscendingPairs(ps)
    ensures var gs := GroupRuns(ps);
            && StrictTicks(gs) && At(gs, t) == EventsAt(ps, t)
            && (gs == [] <==> ps == []) && (ps != [] ==> gs[0].tick == ps[0].0)
  {
    hide StrictTicks, AscendingPairs;
    if ps == [] {
      StrictTicksNil();
    } else {
      assert AscendingPairs(ps[1..]) && (|ps| > 1 ==> ps[0].0 <= ps[1..][0].0) by { AscendingTail(ps); }
      GroupRunsKeeps(ps[1..], t);
      var rest := GroupRuns(ps[1..]);
      var gs := GroupRuns(ps);
      if rest != [] && rest[0].tick == ps[0].0 {
        assert gs[1..] == rest[1..] && rest == [rest[0]] + rest[1..];
        StrictTicksCons(rest[0], rest[1..]);
        StrictTicksCons(gs[0], rest[1..]);
        assert [ps[0].1] + rest[0].events + At(rest[1..], t) == [ps[0].1] + (rest[0].events + At(rest[1..], t));
      } else {
        assert gs[1..] == rest;
        StrictTicksCons(gs[0], rest);
      }
    }
  }

  lemma AscendingTail(ps: seq<Pair>)
    requires AscendingPairs(ps) && ps != []
    ensures AscendingPairs(ps[1..]) && (|ps| > 1 ==> ps[0].0 <= ps[1..][0].0)
  {
  }

  /** Grouping a text record gives strictly ascending ticks, each with its events in file order, so
      the loop replays text records too in the order of the file within each tick. */
  lemma TextGroupsMean(ps: seq<Pair>, t: int)
    ensures StrictTicks(TextGroups(ps)) && At(TextGroups(ps), t) == EventsAt(ps, t)
  {
    SortPairsKeeps(ps, t);
    GroupRunsKeeps(SortPairs(ps), t);
  }

  // -------------------------------------------------------------------------------------
  // Verification against expectations
  // -------------------------------------------------------------------------------------

  /** Success means: no emitted hash contradicts its expectation, every emitted tick has one when
      coverage is required, and every expected tick was emitted. */
  method CompareAgainstMap(hs: Hashes, expected: map<int, nat>, requireCoverage: bool) returns (ok: bool)
    ensures ok <==> && (forall i :: 0 <= i < |hs| && hs[i].0 in expected ==> hs[i].1 == expected[hs[i].0])
                    && (requireCoverage ==> forall i :: 0 <= i < |hs| ==> hs[i].0 in expected)
                    && (forall t :: t in expected ==> Hashed(hs, t))
  {
    var missing := expected.Keys;
    for i := 0 to |hs|
      invariant forall k :: 0 <= k < i && hs[k].0 in expected ==> hs[k].1 == expected[hs[k].0]
      invariant requireCoverage ==> forall k :: 0 <= k < i ==> hs[k].0 in expected
      invariant forall t :: t in missing <==> t in expected && forall k :: 0 <= k < i ==> hs[k].0 != t
    {
      if hs[i].0 !in expected {
        if requireCoverage {
          return false;
        }
      } else if hs[i].1 != expected[hs[i].0] {
        return false;
      }
      missing := missing - {hs[i].0};
    }
    ok := missing == {};
    if !ok {
      var t := Pick(missing);
      assert !Hashed(hs, t);
    }
  }
}
