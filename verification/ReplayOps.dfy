/** The replay as one flat list of operations run one by one: apply an event, step every actor once, hash.
    What the list holds is stated tick by tick, without the loop. */
module ReplayOps {
  import opened Prelude
  import opened Canonical
  import opened ReplayFormat
  import opened ReplayLaw
  import opened ActorMap
  import opened ReplayLoop

  datatype Op = ApplyOp(tick: int, event: Event) | StepOp(tick: int) | HashOp(tick: int)

  /** The state and the hashes after some operations, or the first failure. */
  type Done<S> = Result<(Sim<S>, Hashes), StoreError>

  /** Operations one by one. */
  ghost function Exec<S>(m: Model<S>, w: Sim<S>, ops: seq<Op>): Done<S>
    decreases |ops|
  {
    if ops == [] then Ok((w, []))
    else
      match ops[0]
      case ApplyOp(_, e) =>
        var r := Apply(m, w, e);
        if r.Ok? then Exec(m, r.value, ops[1..]) else Err(r.error)
      case StepOp(_) =>
        var r := StepAll(m, w);
        if r.Ok? then Exec(m, r.value, ops[1..]) else Err(r.error)
      case HashOp(t) =>
        var r := Exec(m, w, ops[1..]);
        if r.Ok? then Ok((r.value.0, [(t, HashOf(w.actors))] + r.value.1)) else r
  }

  function Applies(t: int, es: seq<Event>): seq<Op> {
    if es == [] then [] else [ApplyOp(t, es[0])] + Applies(t, es[1..])
  }

  /** One tick: its events, one step, a hash when it is due. */
  function TickOps(groups: seq<TickRecord>, t: int, every: int): seq<Op> {
    Applies(t, At(groups, t)) + ([StepOp(t)] + (if every > 0 && t % every == 0 then [HashOp(t)] else []))
  }

  /** Every tick below the limit, in order. */
  function Ops(groups: seq<TickRecord>, t: int, limit: int, every: int): seq<Op>
    decreases limit - t
  {
    if t >= limit then [] else TickOps(groups, t, every) + Ops(groups, t + 1, limit, every)
  }

  // -------------------------------------------------------------------------------------
  // What the list holds
  // -------------------------------------------------------------------------------------

  /** The operations of tick `u`. */
  function Of(ops: seq<Op>, u: int): seq<Op> {
    if ops == [] then [] else (if ops[0].tick == u then [ops[0]] else []) + Of(ops[1..], u)
  }

  lemma {:induction false} OfAppend(a: seq<Op>, b: seq<Op>, u: int)
    ensures Of(a + b, u) == Of(a, u) + Of(b, u)
    decreases |a|
  {
    if a == [] {
      assert a + b == b;
    } else {
      assert (a + b)[1..] == a[1..] + b;
      OfAppend(a[1..], b, u);
      Assoc(if a[0].tick == u then [a[0]] else [], Of(a[1..], u), Of(b, u));
    }
  }

  lemma {:induction false} OfAll(ops: seq<Op>, u: int)
    requires forall i :: 0 <= i < |ops| ==> ops[i].tick == u
    ensures Of(ops, u) == ops
  {
    if ops != [] {
      OfAll(ops[1..], u);
      assert ops == [ops[0]] + ops[1..];
    }
  }

  lemma {:induction false} OfNone(ops: seq<Op>, u: int)
    requires forall i :: 0 <= i < |ops| ==> ops[i].tick != u
    ensures Of(ops, u) == []
  {
    if ops != [] { OfNone(ops[1..], u); }
  }

  lemma {:induction false} AppliesAt(t: int, es: seq<Event>)
    ensures |Applies(t, es)| == |es| && forall i :: 0 <= i < |es| ==> Applies(t, es)[i] == ApplyOp(t, es[i])
  {
    if es != [] { AppliesAt(t, es[1..]); }
  }

  lemma {:induction false} OpsTicks(groups: seq<TickRecord>, t: int, limit: int, every: int)
    ensures forall i :: 0 <= i < |Ops(groups, t, limit, every)| ==> t <= Ops(groups, t, limit, every)[i].tick < limit
    ensures forall i, k :: 0 <= i < k < |Ops(groups, t, limit, every)|
              ==> Ops(groups, t, limit, every)[i].tick <= Ops(groups, t, limit, every)[k].tick
    decreases limit - t
  {
    hide At;
    if t < limit {
      AppliesAt(t, At(groups, t));
      OpsTicks(groups, t + 1, limit, every);
    }
  }

  lemma {:induction false} OpsOf(groups: seq<TickRecord>, t: int, limit: int, every: int, u: int)
    requires t <= u < limit
    ensures Of(Ops(groups, t, limit, every), u) == TickOps(groups, u, every)
    decreases limit - t
  {
    hide At;
    var tick, rest := TickOps(groups, t, every), Ops(groups, t + 1, limit, every);
    OfAppend(tick, rest, u);
    AppliesAt(t, At(groups, t));
    OpsTicks(groups, t + 1, limit, every);
    if u == t {
      OfAll(tick, t);
      OfNone(rest, t);
      assert tick + [] == tick;
    } else {
      OfNone(tick, u);
      OpsOf(groups, t + 1, limit, every, u);
      assert [] + Of(rest, u) == Of(rest, u);
    }
  }

  /** With strictly ascending ticks, the events of a tick are those of its one record. */
  lemma {:induction false} AtExactly(groups: seq<TickRecord>, k: nat)
    requires StrictTicks(groups) && k < |groups|
    ensures At(groups, groups[k].tick) == groups[k].events
    decreases k
  {
    LaterTicks(groups);
    if k == 0 {
      NotAt(groups[1..], groups[0].tick);
      assert groups[0].events + [] == groups[0].events;
    } else {
      assert groups[1..][k - 1] == groups[k] && groups[k] in groups[1..];
      AtExactly(groups[1..], k - 1);
      assert [] + groups[k].events == groups[k].events;
    }
  }

  /** What the list holds, exactly: ticks in ascending order from zero to the limit, and within each its
      events in stored order, then exactly one step, then one hash if the tick is a multiple of the
      cadence. */
  lemma OpsExactly(groups: seq<TickRecord>, limit: int, every: int, u: int)
    requires 0 <= u < limit
    ensures var ops := Ops(groups, 0, limit, every);
            && (forall i :: 0 <= i < |ops| ==> 0 <= ops[i].tick < limit)
            && (forall i, k :: 0 <= i < k < |ops| ==> ops[i].tick <= ops[k].tick)
    ensures var mine, es := Of(Ops(groups, 0, limit, every), u), At(groups, u);
            && |mine| == |es| + 1 + (if every > 0 && u % every == 0 then 1 else 0)
            && (forall i :: 0 <= i < |es| ==> mine[i] == ApplyOp(u, es[i]))
            && mine[|es|] == StepOp(u)
            && (every > 0 && u % every == 0 ==> mine[|es| + 1] == HashOp(u))
  {
    hide At, Ops;
    OpsTicks(groups, 0, limit, every);
    OpsOf(groups, 0, limit, every, u);
    AppliesAt(u, At(groups, u));
  }

  // -------------------------------------------------------------------------------------
  // The loop runs the list
  // -------------------------------------------------------------------------------------

  lemma {:induction false} ExecApplies<S>(m: Model<S>, w: Sim<S>, t: int, es: seq<Event>, rest: seq<Op>)
    ensures var r := ApplyAll(m, w, es);
            Exec(m, w, Applies(t, es) + rest) == if r.Ok? then Exec(m, r.value, rest) else Err(r.error)
    decreases |es|
  {
    hide Apply, StepAll, HashOf;
    if es == [] {
      assert Applies(t, es) + rest == rest;
    } else {
      var ops := Applies(t, es) + rest;
      assert ops[0] == ApplyOp(t, es[0]) && ops[1..] == Applies(t, es[1..]) + rest;
      var r := Apply(m, w, es[0]);
      if r.Ok? { ExecApplies(m, r.value, t, es[1..], rest); }
    }
  }

  lemma ExecTick<S>(s: Setup<S>, w: Sim<S>, groups: seq<TickRecord>, t: int, rest: seq<Op>)
    ensures var r := ApplyAll(s.model, w, At(groups, t));
            var q := if r.Ok? then StepAll(s.model, r.value) else r;
            Exec(s.model, w, TickOps(groups, t, s.every) + rest)
            == if q.Err? then Err(q.error)
               else Hashing(HashAt(s, t, q.value), Exec(s.model, q.value, rest))
  {
    hide At, ApplyAll, StepAll, HashOf;
    var es, m := At(groups, t), s.model;
    var hash := if s.every > 0 && t % s.every == 0 then [HashOp(t)] else [];
    var tail := [StepOp(t)] + (hash + rest);
    assert TickOps(groups, t, s.every) + rest == Applies(t, es) + tail;
    ExecApplies(m, w, t, es, tail);
    var r := ApplyAll(m, w, es);
    if r.Ok? {
      assert tail[1..] == hash + rest;
      var q := StepAll(m, r.value);
      if q.Ok? { ExecHash(m, q.value, t, hash, rest); }
    }
  }

  ghost function Hashing<S>(hs: Hashes, r: Done<S>): Done<S> {
    if r.Ok? then Ok((r.value.0, hs + r.value.1)) else r
  }

  lemma ExecHash<S>(m: Model<S>, w: Sim<S>, t: int, hash: seq<Op>, rest: seq<Op>)
    requires hash == [] || hash == [HashOp(t)]
    ensures Exec(m, w, hash + rest) == Hashing(if hash == [] then [] else [(t, HashOf(w.actors))], Exec(m, w, rest))
  {
    hide HashOf;
    if hash == [] {
      assert hash + rest == rest;
      var r := Exec(m, w, rest);
      if r.Ok? { assert [] + r.value.1 == r.value.1; }
    } else {
      assert (hash + rest)[1..] == rest;
    }
  }

  /** The hashes of a finished replay. */
  ghost function Emitted<S>(r: Done<S>): Outcome { if r.Ok? then Ok(r.value.1) else Err(r.error) }

  lemma {:induction false} TimelineIsOps<S>(s: Setup<S>, groups: seq<TickRecord>, w: Sim<S>, t: int)
    ensures Timeline(s, groups, w, t) == Emitted(Exec(s.model, w, Ops(groups, t, s.limit, s.every)))
    decreases s.limit - t
  {
    hide At, ApplyAll, StepAll, HashAt, TickOps, Exec;
    if t < s.limit {
      ExecTick(s, w, groups, t, Ops(groups, t + 1, s.limit, s.every));
      var r := TickEffect(s.model, w, At(groups, t));
      if r.Ok? { TimelineIsOps(s, groups, r.value, t + 1); }
    } else {
      ExecNothing(s.model, w);
    }
  }

  lemma ExecNothing<S>(m: Model<S>, w: Sim<S>)
    ensures Exec(m, w, []) == Ok((w, []))
  {
  }

  /** The replay of a strictly ascending record is the list of its operations run one by one: every event of
      a tick before the tick's one step, the step before the tick's hash, the hash before the next tick. */
  lemma ReplayIsOps<S>(s: Setup<S>, groups: seq<TickRecord>)
    requires StrictTicks(groups) && forall g :: g in groups ==> 0 <= g.tick
    ensures Loop(s, groups, Start(s.model), 0)
            == Emitted(Exec(s.model, Start(s.model), Ops(groups, 0, s.limit, s.every)))
  {
    hide Loop, Timeline, Exec, Ops, StrictTicks;
    LoopIsTimeline(s, groups, Start(s.model), 0);
    TimelineIsOps(s, groups, Start(s.model), 0);
  }
}
