/** Recording then replaying: the artifact, idle ticks elided, replays like the full history of
    boundaries. */
module RecordReplay {
  import opened Prelude
  import opened Canonical
  import opened ReplayFormat
  import opened ReplayReader
  import opened ReplayWriter
  import opened ReplayLaw
  import opened ReplayRecorder
  import opened RecorderRuns
  import opened ActorMap
  import opened ReplayLoop

  /** Every boundary of a run with the events drained there, idle ones included. */
  function Boundaries<M>(j: Json<M>, s: Recorder, calls: seq<Call<M>>): seq<TickRecord>
    decreases |calls|
  {
    if calls == [] then []
    else
      (if calls[0].FlushCall? && !s.w.closed then [TickRecord(calls[0].tick, Sort(s.pending))] else [])
      + Boundaries(j, Do(j, s, calls[0]), calls[1..])
  }

  lemma SortEmpty(es: seq<Event>)
    ensures Sort(es) == [] <==> es == []
  {
    SortIsStable(es, Key(0, 0, 0));
  }

  /** The artifact's ticks are the boundaries with the idle ones left out. */
  lemma {:induction false} ArtifactIsElided<M>(j: Json<M>, s: Recorder, calls: seq<Call<M>>)
    requires forall d :: d in Drains(j, s, calls) ==> d.written
    ensures Elided(Boundaries(j, s, calls)) == TicksOf(Drains(j, s, calls))
    decreases |calls|
  {
    hide Do, Sort, Writable;
    if calls != [] {
      var c := calls[0];
      var s' := Do(j, s, c);
      var ds := Drains(j, s', calls[1..]);
      var bs := Boundaries(j, s', calls[1..]);
      assert Drains(j, s, calls) == DrainOf(s, c) + ds;
      assert forall d :: d in ds ==> d in Drains(j, s, calls);
      ArtifactIsElided(j, s', calls[1..]);
      DrainsAppend(DrainOf(s, c), ds);
      if c.FlushCall? && !s.w.closed {
        SortEmpty(s.pending);
        var b := TickRecord(c.tick, Sort(s.pending));
        assert ([b] + bs)[1..] == bs;
        if s.pending != [] {
          assert DrainOf(s, c)[0] in Drains(j, s, calls);
          DrainCarried(DrainOf(s, c)[0]);
        }
      } else {
        assert Boundaries(j, s, calls) == bs && DrainOf(s, c) == [];
      }
    }
  }

  lemma {:induction false} BoundariesAscend<M>(j: Json<M>, s: Recorder, last: Option<int>, calls: seq<Call<M>>)
    requires Ascending(last, calls)
    ensures StrictTicks(Boundaries(j, s, calls))
    ensures forall b :: b in Boundaries(j, s, calls) ==> 0 <= b.tick && (last.Some? ==> last.value < b.tick)
    decreases |calls|
  {
    hide Do, Sort, StrictTicks;
    if calls == [] {
      StrictTicksNil();
    } else {
      var c := calls[0];
      var rest := Boundaries(j, Do(j, s, c), calls[1..]);
      BoundariesAscend(j, Do(j, s, c), if c.FlushCall? then Some(c.tick) else last, calls[1..]);
      if c.FlushCall? && !s.w.closed {
        StrictTicksCons(TickRecord(c.tick, Sort(s.pending)), rest);
        assert rest != [] ==> rest[0] in rest;
      } else {
        assert [] + rest == rest;
      }
    }
  }

  /** Under one tick limit, replaying what the artifact decodes to gives the same hashes, or the
      same failure, as replaying every boundary of the recorded run, idle ticks written out. */
  lemma RecordingReplays<M(!new), S>(j: Json<M>, tickHz: int, calls: seq<Call<M>>, setup: Setup<S>)
    requires Inverse(j) && Open(tickHz).Ok? && Ascending(None, calls)
    requires var s := Recorder(Open(tickHz).value, []);
             forall d :: d in Drains(j, s, calls) ==> |d.events| <= MAX_EVENTS && AllFit(d.events)
    ensures var s := Recorder(Open(tickHz).value, []);
            var back := ReadDocument(j, Run(j, s, calls).w.stream);
            && back.Ok?
            && Loop(setup, back.value.ticks, Start(setup.model), 0)
               == Loop(setup, Boundaries(j, s, calls), Start(setup.model), 0)
  {
    hide Run, Drains, Boundaries, ReadDocument, TicksOf, HeaderBytes, EventFits, Ascending, Loop, Elided, StrictTicks;
    var s := Recorder(Open(tickHz).value, []);
    ArtifactReads(j, tickHz, calls);
    AscendingWrites(j, s, None, calls);
    ArtifactIsElided(j, s, calls);
    BoundariesAscend(j, s, None, calls);
    ElisionPreserves(setup, Boundaries(j, s, calls));
  }
}
