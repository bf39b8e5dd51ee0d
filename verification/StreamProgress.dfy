/** What the event streams get, not only that they get nothing wrong: a drain delivers up to the head it
    loaded, a reclaim frees up to the nearest stream, and neither can get stuck. */
module StreamProgress {
  import opened Prelude
  import opened Circular
  import opened EventStreams

  // -------------------------------------------------------------------------------------
  // Lines
  // -------------------------------------------------------------------------------------

  lemma {:induction false} FittingIn<R>(fits: R -> bool, xs: seq<R>, x: R)
    ensures x in Fitting(fits, xs) <==> x in xs && fits(x)
  {
    if xs != [] {
      FittingIn(fits, xs[1..], x);
      assert x in xs <==> x == xs[0] || x in xs[1..];
    }
  }

  /** The lines of a passage are the fitting records in order: nothing else, none twice, and all of them
      when all fit. */
  lemma {:induction false} FittingExactly<R>(fits: R -> bool, xs: seq<R>)
    ensures forall x :: x in Fitting(fits, xs) <==> x in xs && fits(x)
    ensures |Fitting(fits, xs)| <= |xs|
    ensures |Fitting(fits, xs)| == |xs| <==> forall i :: 0 <= i < |xs| ==> fits(xs[i])
    ensures (forall i :: 0 <= i < |xs| ==> fits(xs[i])) ==> Fitting(fits, xs) == xs
  {
    forall x ensures x in Fitting(fits, xs) <==> x in xs && fits(x) { FittingIn(fits, xs, x); }
    if xs != [] {
      FittingExactly(fits, xs[1..]);
      assert forall i :: 0 <= i < |xs[1..]| ==> xs[1..][i] == xs[i + 1];
      if forall i :: 0 <= i < |xs[1..]| ==> fits(xs[1..][i]) {
        forall i | 0 < i < |xs| ensures fits(xs[i]) { assert xs[i] == xs[1..][i - 1]; }
      }
    }
  }

  // -------------------------------------------------------------------------------------
  // Drains
  // -------------------------------------------------------------------------------------

  /** Where in the log a stream's cursor stands. */
  function Pos<R>(c: Conn<R>): nat
    requires c.On?
  {
    c.start + |c.got|
  }

  /** Where a drain loaded in `s` has to stop: at the head or after `limit` records. */
  function Goal<R>(s: State<R>, c: Conn<R>, limit: nat): nat
    requires c.On?
  {
    if |s.log| <= Pos(c) + limit then |s.log| else Pos(c) + limit
  }

  /** The drain of stream `i` loaded when the log was `log` long and the stream stood as `c`. */
  ghost predicate Underway<R>(s: State<R>, i: nat, limit: nat, c: Conn<R>, log: seq<R>) {
    && s.consumer.Draining? && s.consumer.conn == i && s.consumer.limit == limit && s.consumer.endPos == |log|
    && i < |s.conns| && s.conns[i] == c && log <= s.log && |s.consumer.out| <= limit
  }

  lemma StepUnderway<R>(s: State<R>, e: Event<R>, i: nat, limit: nat, c: Conn<R>, log: seq<R>)
    requires Inv(s) && Indices(s) && Underway(s, i, limit, c, log) && Step(s, e).Some? && !e.DrainEnd?
    ensures Underway(Step(s, e).value, i, limit, c, log)
  {
    hide Nearest;
  }

  lemma {:induction false} RunsUnderway<R>(s: State<R>, es: seq<Event<R>>, s': State<R>, i: nat, limit: nat,
                                           c: Conn<R>, log: seq<R>)
    requires Inv(s) && Runs(s, es, s') && Underway(s, i, limit, c, log) && forall e :: e in es ==> !e.DrainEnd?
    ensures Inv(s') && Underway(s', i, limit, c, log)
    decreases |es|
  {
    hide Inv, Indices, Step, Underway;
    if es != [] {
      assert es[0] in es;
      StepKeeps(s, es[0]);
      StepUnderway(s, es[0], i, limit, c, log);
      RunsUnderway(Step(s, es[0]).value, es[1..], s', i, limit, c, log);
    }
  }

  /** Two log positions in one slot are one. */
  lemma OnePosition<R>(s: State<R>, slot: nat, p: nat, q: nat)
    requires Stands(s, slot, p) && Stands(s, slot, q)
    ensures p == q
  {
    DistAt(|s.slots|, s.tail, p - s.base);
    DistAt(|s.slots|, s.tail, q - s.base);
  }

  /** A drain that may end has copied exactly up to its goal. */
  lemma EndsAtGoal<R>(s: State<R>, sent: nat, i: nat, limit: nat, c: Conn<R>, log: seq<R>)
    requires Inv(s) && Indices(s) && Underway(s, i, limit, c, log) && c.On? && Step(s, DrainEnd(sent)).Some?
    ensures var goal := if |log| <= Pos(c) + limit then |log| else Pos(c) + limit;
            Pos(c) <= goal <= |log| && Pos(c) + |s.consumer.out| == goal && s.consumer.out == log[Pos(c)..goal]
  {
    hide Nearest, Ring, Serving, Producing;
    var p := Pos(c);
    if s.consumer.idx == s.consumer.end {
      OnePosition(s, s.consumer.idx, p + |s.consumer.out|, |log|);
    }
    assert s.log[p..p + |s.consumer.out|] == log[p..p + |s.consumer.out|];
  }

  /** Delivery: whatever the producer and the drain's own steps do in between, a drain that is not stalled
      leaves its stream with exactly the log from where it attached up to the head at the load, or up to
      `limit` records further than it stood. */
  lemma DrainDelivers<R>(s: State<R>, i: nat, limit: nat, mid: seq<Event<R>>, s1: State<R>)
    requires Inv(s) && Indices(s) && Step(s, DrainLoad(i, limit)).Some?
    requires Runs(Step(s, DrainLoad(i, limit)).value, mid, s1) && forall e :: e in mid ==> !e.DrainEnd?
    requires Indices(s1) && s1.consumer.Draining? && Step(s1, DrainEnd(|s1.consumer.out|)).Some?
    ensures var s' := Step(s1, DrainEnd(|s1.consumer.out|)).value;
            var c := s.conns[i];
            && c.start <= Pos(c) <= Goal(s, c, limit) <= |s.log|
            && i < |s'.conns| && s'.conns[i].On? && s'.conns[i].start == c.start && s'.consumer.Free?
            && s'.conns[i].got == s.log[c.start..Goal(s, c, limit)]
            && s'.conns[i].lines == c.lines + Fitting(s.fits, s.log[Pos(c)..Goal(s, c, limit)])
  {
    hide Nearest, Ring, Serving, Producing, Runs, Fitting, Stands;
    var c := s.conns[i];
    var loaded := Step(s, DrainLoad(i, limit)).value;
    StepKeeps(s, DrainLoad(i, limit));
    assert Served(s, c) by { ServedAt(s, i); }
    assert Underway(loaded, i, limit, c, s.log);
    RunsUnderway(loaded, mid, s1, i, limit, c, s.log);
    RunsFits(loaded, mid, s1);
    EndsAtGoal(s1, |s1.consumer.out|, i, limit, c, s.log);
    var out := s1.consumer.out;
    assert out[..|out|] == out;
    assert c.got + out == s.log[c.start..Goal(s, c, limit)];
  }

  lemma ServedAt<R>(s: State<R>, i: nat)
    requires Serving(s) && i < |s.conns|
    ensures Served(s, s.conns[i])
  {
  }

  lemma {:induction false} RunsFits<R>(s: State<R>, es: seq<Event<R>>, s': State<R>)
    requires Runs(s, es, s')
    ensures s'.fits == s.fits
    decreases |es|
  {
    hide Nearest;
    if es != [] { RunsFits(Step(s, es[0]).value, es[1..], s'); }
  }

  /** A drain cannot get stuck: it can copy a record or end with everything sent. */
  lemma DrainCanGoOn<R>(s: State<R>)
    requires Inv(s) && Indices(s) && s.consumer.Draining?
    ensures Step(s, DrainCopy).Some? || Step(s, DrainEnd(|s.consumer.out|)).Some?
  {
    hide Nearest;
    var c := s.conns[s.consumer.conn];
    assert |s.consumer.out| <= |s.slots|;
  }

  /** And each copy brings its end nearer. */
  lemma CopyAdvances<R>(s: State<R>)
    requires Inv(s) && Indices(s) && Step(s, DrainCopy).Some?
    ensures var s' := Step(s, DrainCopy).value;
            && s'.consumer.Draining? && |s'.consumer.out| == |s.consumer.out| + 1 <= s.consumer.limit
            && s'.consumer.endPos == s.consumer.endPos
  {
    hide Nearest;
  }

  // -------------------------------------------------------------------------------------
  // Publishes
  // -------------------------------------------------------------------------------------

  /** The three sections of a publish. */
  function PublishRun<R>(x: R): seq<Event<R>> { [PublishLoad(x)] + ([PublishCopy] + [PublishStore]) }

  /** With room in the ring a publish goes through and puts the event at the end of the log; without, it
      changes nothing. */
  lemma PublishExactly<R>(s: State<R>, x: R, s': State<R>)
    requires Inv(s) && Indices(s) && s.producer.Idle?
    ensures if |s.log| - s.base < |s.slots| - 1
            then s' == s.(slots := s.slots[s.head := x], head := Successor(|s.slots|, s.head), log := s.log + [x])
                 ==> Runs(s, PublishRun(x), s')
            else Step(s, PublishLoad(x)) == Some(s)
  {
    PublishLoadKeeps(s, PublishLoad(x));
    if |s.log| - s.base < |s.slots| - 1 {
      var s1 := Step(s, PublishLoad(x)).value;
      InvIndices(s1);
      PublishCopyKeeps(s1, PublishCopy);
      var s2 := Step(s1, PublishCopy).value;
      InvIndices(s2);
      PublishStoreKeeps(s2, PublishStore);
      var s3 := Step(s2, PublishStore).value;
      InvIndices(s3);
      var last: seq<Event<R>> := [PublishStore];
      var two := [PublishCopy] + last;
      assert PublishRun(x)[1..] == two && two[1..] == last && last[1..] == [];
      hide Inv, Indices, Step;
      assert Runs(s3, [], s3);
      assert Runs(s2, last, s3);
      assert Runs(s1, two, s3);
    }
  }

  // -------------------------------------------------------------------------------------
  // Reclaims
  // -------------------------------------------------------------------------------------

  /** With a stream attached the scan's result is some stream's cursor. */
  lemma {:induction false} NearestIsCursor<R>(conns: seq<Conn<R>>, n: nat, tail: nat, best: nat, have: bool)
    requires tail < n && best < n && forall c :: c in conns && c.On? ==> c.cursor < n
    ensures var r := Nearest(conns, n, tail, best, have);
            || (exists i :: 0 <= i < |conns| && conns[i].On? && r == conns[i].cursor)
            || (r == best && (have || forall i :: 0 <= i < |conns| ==> conns[i].Off?))
    decreases |conns|
  {
    if conns != [] {
      assert conns[0] in conns;
      var best', have' := best, have;
      if conns[0].On? && (!have || Dist(n, tail, conns[0].cursor) < Dist(n, tail, best)) {
        best', have' := conns[0].cursor, true;
      }
      NearestIsCursor(conns[1..], n, tail, best', have');
      var r := Nearest(conns, n, tail, best, have);
      if i :| 0 <= i < |conns[1..]| && conns[1..][i].On? && r == conns[1..][i].cursor {
        assert conns[i + 1].On? && r == conns[i + 1].cursor;
      } else if r == best' && !have' {
        forall i | 0 <= i < |conns| ensures conns[i].Off? { assert i > 0 ==> conns[i] == conns[1..][i - 1]; }
      }
    }
  }

  lemma {:induction false} StaysReleasing<R>(s: State<R>, es: seq<Event<R>>, s': State<R>)
    requires Inv(s) && Runs(s, es, s') && s.consumer.Releasing? && forall e :: e in es ==> !e.ReclaimStore?
    ensures Inv(s') && s'.consumer == s.consumer && s'.conns == s.conns
    decreases |es|
  {
    hide Nearest, Inv, Indices;
    if es != [] {
      assert es[0] in es;
      StepKeeps(s, es[0]);
      StaysReleasing(Step(s, es[0]).value, es[1..], s');
    }
  }

  /** What a reclaim frees, exactly, whatever the producer does in between: everything before the nearest
      position of an attached stream, or everything published at the scan when none is attached. */
  lemma ReclaimExactly<R>(s: State<R>, mid: seq<Event<R>>, s1: State<R>)
    requires Inv(s) && Indices(s) && Step(s, ReclaimLoad).Some?
    requires Runs(Step(s, ReclaimLoad).value, mid, s1) && forall e :: e in mid ==> !e.ReclaimStore?
    requires Indices(s1) && Step(s1, ReclaimStore).Some?
    ensures var s' := Step(s1, ReclaimStore).value;
            && s'.conns == s.conns && s'.consumer.Free?
            && (forall i :: 0 <= i < |s.conns| && s.conns[i].On? ==> s'.base <= Pos(s.conns[i]))
            && (|| (exists i :: 0 <= i < |s.conns| && s.conns[i].On? && s'.base == Pos(s.conns[i]))
                || (s'.base == |s.log| && forall i :: 0 <= i < |s.conns| ==> s.conns[i].Off?))
  {
    hide Nearest, Ring, Serving, Producing, Runs, Stands;
    var loaded := Step(s, ReclaimLoad).value;
    var m := Nearest(s.conns, |s.slots|, s.tail, s.head, false);
    StepKeeps(s, ReclaimLoad);
    StaysReleasing(loaded, mid, s1);
    ReclaimStoreKeeps(s1, ReclaimStore);
    forall i | 0 <= i < |s.conns| && s.conns[i].On? ensures loaded.consumer.pos <= Pos(s.conns[i]) {
      NearestFirst(s, m, i);
    }
    ScanFinds(s, m);
  }

  lemma ScanFinds<R>(s: State<R>, m: nat)
    requires Inv(s) && Indices(s) && m == Nearest(s.conns, |s.slots|, s.tail, s.head, false) && m < |s.slots|
    ensures var pos := s.base + Dist(|s.slots|, s.tail, m);
            || (exists i :: 0 <= i < |s.conns| && s.conns[i].On? && pos == Pos(s.conns[i]))
            || (pos == |s.log| && forall i :: 0 <= i < |s.conns| ==> s.conns[i].Off?)
  {
    hide Nearest;
    NearestIsCursor(s.conns, |s.slots|, s.tail, s.head, false);
    if i :| 0 <= i < |s.conns| && s.conns[i].On? && m == s.conns[i].cursor {
      ServedAt(s, i);
      ServedDist(s, s.conns[i]);
      assert s.base + Dist(|s.slots|, s.tail, m) == Pos(s.conns[i]);
    } else {
      DistAt(|s.slots|, s.tail, |s.log| - s.base);
    }
  }

  /** From the attach on: until it is detached a stream has been passed exactly what was published after it
      attached. */
  lemma {:induction false} AttachedFrom<R>(s: State<R>, es: seq<Event<R>>, s': State<R>, i: nat, start: nat)
    requires Inv(s) && Runs(s, es, s') && Detach(i) !in es
    requires i < |s.conns| && s.conns[i].On? && s.conns[i].start == start
    ensures i < |s'.conns| && s'.conns[i].On? && s'.conns[i].start == start <= Pos(s'.conns[i]) <= |s'.log|
    ensures s'.conns[i].got == s'.log[start..Pos(s'.conns[i])]
    decreases |es|
  {
    hide Step, Inv, Indices;
    if es != [] {
      StepKeeps(s, es[0]);
      StepAttached(s, es[0], i);
      AttachedFrom(Step(s, es[0]).value, es[1..], s', i, start);
    } else {
      InvServed(s, i);
    }
  }

  lemma StepAttached<R>(s: State<R>, e: Event<R>, i: nat)
    requires Indices(s) && Step(s, e).Some? && e != Detach(i) && i < |s.conns| && s.conns[i].On?
    ensures var s' := Step(s, e).value;
            i < |s'.conns| && s'.conns[i].On? && s'.conns[i].start == s.conns[i].start
  {
    hide Nearest, Fitting;
  }

  lemma InvServed<R>(s: State<R>, i: nat)
    requires Inv(s) && i < |s.conns|
    ensures Served(s, s.conns[i])
  {
  }

  /** A free consumer can attach a stream at the head, and drain or reclaim. */
  lemma CanStart<R>(s: State<R>, i: nat, limit: nat)
    requires Inv(s) && Indices(s) && s.consumer.Free? && i < |s.conns|
    ensures if s.conns[i].On? then Step(s, DrainLoad(i, limit)).Some? && Step(s, Detach(i)).Some?
            else && Step(s, Attach(i)).Some? && Step(s, Attach(i)).value.conns[i].On?
                 && Step(s, Attach(i)).value.conns[i].start == |s.log|
    ensures Step(s, ReclaimLoad).Some? && Step(s, Detach(i)).Some? && Step(s, Detach(i)).value.conns[i].Off?
  {
    hide Nearest;
  }

  /** The consumer's own steps take a drain to its end. */
  lemma {:induction false} FinishDrain<R>(s: State<R>, i: nat, limit: nat, c: Conn<R>, log: seq<R>)
    returns (es: seq<Event<R>>, s1: State<R>)
    requires Inv(s) && Indices(s) && Underway(s, i, limit, c, log)
    ensures Runs(s, es, s1) && (forall e :: e in es ==> !e.DrainEnd?) && s1.log == s.log
    ensures Inv(s1) && Indices(s1) && Underway(s1, i, limit, c, log) && Step(s1, DrainEnd(|s1.consumer.out|)).Some?
    decreases limit - |s.consumer.out|
  {
    hide Nearest, Inv, Indices, Stands;
    if Step(s, DrainCopy).Some? {
      var s' := Step(s, DrainCopy).value;
      StepKeeps(s, DrainCopy);
      InvIndices(s');
      StepUnderway(s, DrainCopy, i, limit, c, log);
      CopyAdvances(s);
      var rest;
      rest, s1 := FinishDrain(s', i, limit, c, log);
      es := [DrainCopy] + rest;
      assert es[1..] == rest;
    } else {
      DrainCanGoOn(s);
      es, s1 := [], s;
    }
  }

  /** So from any reachable state with a free consumer there is a drain of any attached stream, and it
      delivers. */
  lemma DrainPossible<R>(s: State<R>, i: nat, limit: nat) returns (mid: seq<Event<R>>, s1: State<R>)
    requires Inv(s) && Indices(s) && s.consumer.Free? && i < |s.conns| && s.conns[i].On?
    ensures Step(s, DrainLoad(i, limit)).Some? && Runs(Step(s, DrainLoad(i, limit)).value, mid, s1)
    ensures Indices(s1) && s1.consumer.Draining? && Step(s1, DrainEnd(|s1.consumer.out|)).Some?
    ensures var s' := Step(s1, DrainEnd(|s1.consumer.out|)).value;
            && Pos(s.conns[i]) <= Goal(s, s.conns[i], limit) <= |s.log| && s.conns[i].start <= Pos(s.conns[i])
            && i < |s'.conns| && s'.conns[i].On?
            && s'.conns[i].got == s.log[s.conns[i].start..Goal(s, s.conns[i], limit)]
  {
    hide Nearest, Inv, Indices, Runs, Fitting, Stands;
    CanStart(s, i, limit);
    var loaded := Step(s, DrainLoad(i, limit)).value;
    StepKeeps(s, DrainLoad(i, limit));
    InvIndices(loaded);
    mid, s1 := FinishDrain(loaded, i, limit, s.conns[i], s.log);
    DrainDelivers(s, i, limit, mid, s1);
  }
}
