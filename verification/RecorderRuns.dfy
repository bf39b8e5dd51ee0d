/** What the recorder promises over whole runs. */
module RecorderRuns {
  import opened Prelude
  import opened Struct
  import opened Canonical
  import opened ReplayFormat
  import opened ReplayReader
  import opened ReplayWriter
  import opened ReplayRoundTrip
  import opened ReplayRecorder

  // -------------------------------------------------------------------------------------
  // The artifact is readable after every call
  // -------------------------------------------------------------------------------------

  /** An accepted record is appended to its list and changes no other. */
  lemma AcceptAppends<M>(d: Document<M>, r: Record<M>)
    requires Accept(d, r).Ok?
    ensures var b := Accept(d, r).value;
            && b.ticks == d.ticks + (if r.TickRec? then [r.rec] else [])
            && b.checkpoints == d.checkpoints + (if r.CheckpointRec? then [r.checkpoint] else [])
            && b.expected == d.expected + (if r.ExpectedRec? then [r.hash] else [])
            && b.tickHz == d.tickHz
  {
    hide LastTick, LastKey, ExpectationSeen;
    assert d.ticks + [] == d.ticks && d.checkpoints + [] == d.checkpoints && d.expected + [] == d.expected;
  }

  lemma {:induction false} AcceptCollects<M>(d: Document<M>, rs: seq<Record<M>>)
    requires AcceptAll(d, rs).Ok?
    ensures var b := AcceptAll(d, rs).value;
            && b.ticks == d.ticks + TicksIn(rs) && b.checkpoints == d.checkpoints + CheckpointsIn(rs)
            && b.expected == d.expected + Expectations(rs) && b.tickHz == d.tickHz
    decreases |rs|
  {
    hide Accept;
    if rs == [] {
      assert d.ticks + [] == d.ticks && d.checkpoints + [] == d.checkpoints && d.expected + [] == d.expected;
    } else {
      AcceptAppends(d, rs[0]);
      AcceptCollects(Accept(d, rs[0]).value, rs[1..]);
      Assoc(d.ticks, if rs[0].TickRec? then [rs[0].rec] else [], TicksIn(rs[1..]));
      Assoc(d.checkpoints, if rs[0].CheckpointRec? then [rs[0].checkpoint] else [], CheckpointsIn(rs[1..]));
      Assoc(d.expected, if rs[0].ExpectedRec? then [rs[0].hash] else [], Expectations(rs[1..]));
    }
  }

  /** After any sequence of recorder calls, refused ones included, the artifact is readable, and it
      holds exactly the written drains, in order, each canonically sorted and followed by its
      checkpoint. Idle ticks leave nothing. */
  lemma ArtifactReads<M(!new)>(j: Json<M>, tickHz: int, calls: seq<Call<M>>)
    requires Inverse(j) && Open(tickHz).Ok?
    ensures var s := Recorder(Open(tickHz).value, []);
            var back := ReadDocument(j, Run(j, s, calls).w.stream);
            && back.Ok? && back.value.tickHz == tickHz
            && back.value.ticks == TicksOf(Drains(j, s, calls))
            && back.value.checkpoints == CheckpointsOf(Drains(j, s, calls))
            && back.value.expected == []
  {
    hide ReadDocument, Run, Session, Emitted, AllWrites, AcceptAll, Drains, TicksOf, CheckpointsOf, Expectations;
    var s := Recorder(Open(tickHz).value, []);
    var writes := AllWrites(j, s, calls);
    RunEmits(j, s, calls);
    SessionReadsBack(j, tickHz, writes);
    AcceptCollects(NewDocument(tickHz), Emitted(j, s.w, writes));
  }

  // -------------------------------------------------------------------------------------
  // Each event lands in the first drain after it
  // -------------------------------------------------------------------------------------

  lemma {:induction false} RunAppend<M>(j: Json<M>, s: Recorder, a: seq<Call<M>>, b: seq<Call<M>>)
    ensures Run(j, s, a + b) == Run(j, Run(j, s, a), b)
    ensures Drains(j, s, a + b) == Drains(j, s, a) + Drains(j, Run(j, s, a), b)
    decreases |a|
  {
    hide Do, DrainOf;
    if a == [] {
      assert a + b == b;
    } else {
      assert (a + b)[1..] == a[1..] + b;
      var s' := Do(j, s, a[0]);
      RunAppend(j, s', a[1..], b);
      var x := DrainOf(s, a[0]);
      Assoc(x, Drains(j, s', a[1..]), Drains(j, Run(j, s, a), b));
    }
  }

  ghost predicate Quiet<M>(calls: seq<Call<M>>) { forall c :: c in calls ==> !c.FlushCall? && !c.CloseCall? }

  lemma {:induction false} QuietBuffers<M>(j: Json<M>, s: Recorder, calls: seq<Call<M>>)
    requires !s.w.closed && Quiet(calls)
    ensures !Run(j, s, calls).w.closed && s.pending <= Run(j, s, calls).pending && Drains(j, s, calls) == []
    decreases |calls|
  {
    hide Session;
    if calls != [] {
      assert calls[0] in calls;
      ClosedStays(j, s, calls[0]);
      QuietBuffers(j, Do(j, s, calls[0]), calls[1..]);
    }
  }

  /** An event recorded while open belongs to the first boundary after it, unless the recorder is
      closed first. */
  lemma LandsInNextDrain<M>(j: Json<M>, s: Recorder, pre: seq<Call<M>>, e: Event, mid: seq<Call<M>>,
                            tick: int, state: Option<seq<Byte>>, post: seq<Call<M>>)
    requires !Run(j, s, pre).w.closed && Quiet(mid)
    ensures var calls := pre + ([RecordCall(e)] + mid) + ([FlushCall(tick, state)] + post);
            var n := |Drains(j, s, pre)|;
            var ds := Drains(j, s, calls);
            n < |ds| && ds[n].tick == tick && e in ds[n].events
  {
    hide Drains, Do;
    var s1 := Run(j, s, pre);
    var s2 := s1.(pending := s1.pending + [e]);
    var head := [RecordCall(e)] + mid;
    assert head[1..] == mid;
    assert Do(j, s1, head[0]) == s2 by { Records(j, s1, e); }
    QuietBuffers(j, s2, mid);
    var s3 := Run(j, s1, head);
    assert s3 == Run(j, s2, mid);
    assert s1.pending + [e] <= s3.pending;
    assert s3.pending[|s1.pending|] == e;
    var tail := [FlushCall(tick, state)] + post;
    RunAppend(j, s, pre, head);
    RunAppend(j, s, pre + head, tail);
    FirstDrain(j, s1, head, s2);
    FlushDrains(j, s3, tail);
  }

  lemma Records<M>(j: Json<M>, s: Recorder, e: Event)
    ensures Do(j, s, RecordCall(e)) == if s.w.closed then s else s.(pending := s.pending + [e])
    ensures DrainOf<M>(s, RecordCall(e)) == []
  {
  }

  lemma FirstDrain<M>(j: Json<M>, s: Recorder, head: seq<Call<M>>, s': Recorder)
    requires head != [] && head[0].RecordCall? && Do(j, s, head[0]) == s' && Drains(j, s', head[1..]) == []
    ensures Drains(j, s, head) == []
  {
  }

  lemma FlushDrains<M>(j: Json<M>, s: Recorder, tail: seq<Call<M>>)
    requires tail != [] && tail[0].FlushCall? && !s.w.closed && s.pending != []
    ensures var ds := Drains(j, s, tail);
            ds != [] && ds[0].tick == tail[0].tick && ds[0].events == s.pending
  {
  }

  // -------------------------------------------------------------------------------------
  // Loss
  // -------------------------------------------------------------------------------------

  /** A drain empties the buffer before it writes, so exactly the ticks the writer refuses lose
      their events: nothing reaches the stream, nothing is kept. */
  lemma FlushLosesExactly<M>(j: Json<M>, s: Recorder, tick: int, state: Option<seq<Byte>>)
    requires !s.w.closed && s.pending != []
    ensures var s' := Do(j, s, FlushCall(tick, state));
            && s'.pending == []
            && (s'.w.stream == s.w.stream <==> !Writable(s.w, tick, s.pending))
            && (Raises(j, s, FlushCall(tick, state)) == None
                <==> Writable(s.w, tick, s.pending) && (state.Some? ==> |state.value| == RNG_STATE_SIZE))
  {
    hide Write, Canon, Writable, RecordBytes;
    FlushEmits(j, s, tick, state);
    var rec: Record<M> := TickRec(TickRecord(tick, s.pending));
    var writes: seq<Record<M>> := Writes(s, FlushCall(tick, state));
    SessionStream(j, s.w, writes);
    var rs := Emitted(j, s.w, writes);
    assert BytesOf(j, rs) == [] <==> rs == [];
    assert rs == [] <==> !Write(j, s.w, rec).Ok? by {
      assert writes[0] == rec;
      if !Write(j, s.w, rec).Ok? { assert writes == [rec]; OneWrite(j, s.w, rec); }
    }
  }

  /** The stale boundary: flushing again at the last written tick drops what was recorded since. */
  lemma StaleFlushLoses<M>(j: Json<M>, s: Recorder, e: Event)
    requires !s.w.closed && s.pending == [] && s.w.lastTick.Some?
    ensures Run(j, s, [RecordCall(e), FlushCall(s.w.lastTick.value, None)]) == s
  {
    hide Write;
    var t := s.w.lastTick.value;
    var calls: seq<Call<M>> := [RecordCall(e), FlushCall(t, None)];
    assert calls[1..] == [FlushCall(t, None)] && calls[1..][1..] == [];
    var s1 := s.(pending := [e]);
    FlushEmits<M>(j, s1, t, None);
    var rec: Record<M> := TickRec(TickRecord(t, [e]));
    assert Writes(s1, FlushCall(t, None)) == [rec];
    OneWrite(j, s.w, rec);
    assert [] + [e] == [e];
    assert Do(j, s, calls[0]) == s1 && Do(j, s1, calls[1]) == s;
    assert Run(j, s1, calls[1..]) == Run(j, s, calls[1..][1..]);
  }

  /** Boundaries arrive in ascending tick order, in range. */
  ghost predicate Ascending<M>(last: Option<int>, calls: seq<Call<M>>)
    decreases |calls|
  {
    calls == [] ||
    if calls[0].FlushCall? then
      && (last.Some? ==> last.value < calls[0].tick) && FieldFits(U(8), calls[0].tick)
      && Ascending(Some(calls[0].tick), calls[1..])
    else Ascending(last, calls[1..])
  }

  /** With ascending boundaries, drains within the count limit and events in range, no drain is
      refused. */
  lemma {:induction false} AscendingWrites<M>(j: Json<M>, s: Recorder, last: Option<int>, calls: seq<Call<M>>)
    requires Ascending(last, calls) && Sane(s)
    requires s.w.lastTick.Some? ==> last.Some? && s.w.lastTick.value <= last.value
    requires forall d :: d in Drains(j, s, calls) ==> |d.events| <= MAX_EVENTS && AllFit(d.events)
    ensures forall d :: d in Drains(j, s, calls) ==> d.written
    decreases |calls|
  {
    hide Do, Sane, EventFits;
    if calls != [] {
      var c := calls[0];
      var s' := Do(j, s, c);
      var rest := Drains(j, s', calls[1..]);
      ClosedStays(j, s, c);
      assert Drains(j, s, calls) == DrainOf(s, c) + rest;
      assert forall d :: d in rest ==> d in Drains(j, s, calls);
      if DrainOf(s, c) != [] { assert DrainOf(s, c)[0] in Drains(j, s, calls); }
      LastTickAfter(j, s, c);
      AscendingWrites(j, s', if c.FlushCall? then Some(c.tick) else last, calls[1..]);
    }
  }

  lemma LastTickAfter<M>(j: Json<M>, s: Recorder, c: Call<M>)
    ensures Do(j, s, c).w.lastTick == s.w.lastTick || (c.FlushCall? && Do(j, s, c).w.lastTick == Some(c.tick))
  {
    hide Write, Writable;
    match c
    case RecordCall(_) =>
    case MetaCall(m) =>
      if !s.w.closed {
        OneWrite(j, s.w, MetaRec(m));
        if Write(j, s.w, MetaRec(m)).Ok? { WriteLastTick(j, s.w, MetaRec(m)); }
      }
    case CloseCall =>
    case FlushCall(tick, state) =>
      if !s.w.closed && s.pending != [] {
        var rec: Record<M> := TickRec(TickRecord(tick, s.pending));
        OneWrite(j, s.w, rec);
        if Write(j, s.w, rec).Ok? { WriteLastTick(j, s.w, rec); }
        if |Writes(s, c)| == 1 {
          assert Writes(s, c) == [rec];
        } else {
          var ckpt: Record<M> := CheckpointRec(Checkpoint(tick, DEFAULT_STREAM_KEY, state.value));
          assert Writes(s, c) == [rec] + [ckpt];
          SessionAppend(j, s.w, [rec], [ckpt]);
          var w := Session(j, s.w, [rec]);
          OneWrite(j, w, ckpt);
          if Write(j, w, ckpt).Ok? { WriteLastTick(j, w, ckpt); }
        }
      }
  }

  lemma WriteLastTick<M>(j: Json<M>, w: Writer, r: Record<M>)
    requires Write(j, w, r).Ok?
    ensures Write(j, w, r).value.lastTick == if r.TickRec? then Some(r.rec.tick) else w.lastTick
  {
    hide RecordFits, RecordBytes, InOrder;
  }

  /** The events of the ticks on the stream. */
  function EventsOf(ts: seq<TickRecord>): seq<Event> {
    if ts == [] then [] else ts[0].events + EventsOf(ts[1..])
  }

  /** Drains that are all written keep every event on the stream, none twice. */
  lemma {:induction false} WrittenKeepsAll(ds: seq<Drain>)
    requires forall d :: d in ds ==> d.written
    ensures multiset(EventsOf(TicksOf(ds))) == multiset(Flat(ds))
  {
    hide Sort;
    if ds != [] {
      assert ds[0] in ds;
      SortIsStable(ds[0].events, Key(0, 0, 0));
      var t := TickRecord(ds[0].tick, Sort(ds[0].events));
      assert ([t] + TicksOf(ds[1..]))[1..] == TicksOf(ds[1..]);
      WrittenKeepsAll(ds[1..]);
    }
  }

  /** Conservation into the artifact: with ascending boundaries and drains in range, what was
      recorded while open is exactly what the artifact decodes to, plus the discarded tail and what
      is still buffered. */
  lemma NothingLost<M(!new)>(j: Json<M>, tickHz: int, calls: seq<Call<M>>)
    requires Inverse(j) && Open(tickHz).Ok? && Ascending(None, calls)
    requires var s := Recorder(Open(tickHz).value, []);
             forall d :: d in Drains(j, s, calls) ==> |d.events| <= MAX_EVENTS && AllFit(d.events)
    ensures var s := Recorder(Open(tickHz).value, []);
            var back := ReadDocument(j, Run(j, s, calls).w.stream);
            && back.Ok?
            && multiset(Recorded(j, s, calls))
               == multiset(EventsOf(back.value.ticks)) + multiset(Discarded(j, s, calls))
                  + multiset(Run(j, s, calls).pending)
  {
    hide Run, Drains, Recorded, Discarded, ReadDocument, EventsOf, TicksOf, Flat, HeaderBytes, EventFits, Ascending;
    var s := Recorder(Open(tickHz).value, []);
    ArtifactReads(j, tickHz, calls);
    EventsConserved(j, s, calls);
    AscendingWrites(j, s, None, calls);
    WrittenKeepsAll(Drains(j, s, calls));
    assert [] + Recorded(j, s, calls) == Recorded(j, s, calls);
  }

  // -------------------------------------------------------------------------------------
  // Determinism
  // -------------------------------------------------------------------------------------

  /** Events in some arrival order, then one call that is not a record. */
  datatype Segment<M> = Segment(events: seq<Event>, boundary: Call<M>)

  function Arrivals<M>(es: seq<Event>): seq<Call<M>> {
    if es == [] then [] else [RecordCall(es[0])] + Arrivals(es[1..])
  }

  function CallsOf<M>(segs: seq<Segment<M>>): seq<Call<M>> {
    if segs == [] then [] else Arrivals(segs[0].events) + [segs[0].boundary] + CallsOf(segs[1..])
  }

  /** The same boundaries, and between them the same events in any order. */
  ghost predicate Reordered<M>(a: seq<Segment<M>>, b: seq<Segment<M>>) {
    && |a| == |b|
    && forall i :: 0 <= i < |a| ==> && a[i].boundary == b[i].boundary
                                    && !a[i].boundary.RecordCall?
                                    && multiset(a[i].events) == multiset(b[i].events)
  }

  ghost predicate Similar(s: Recorder, t: Recorder) { s.w == t.w && multiset(s.pending) == multiset(t.pending) }

  lemma {:induction false} ArrivalsBuffer<M>(j: Json<M>, s: Recorder, es: seq<Event>)
    ensures Run(j, s, Arrivals<M>(es)) == if s.w.closed then s else s.(pending := s.pending + es)
    ensures Drains(j, s, Arrivals<M>(es)) == []
    decreases |es|
  {
    hide Do, DrainOf;
    if es == [] {
      assert s.pending + es == s.pending;
    } else {
      Records(j, s, es[0]);
      var calls: seq<Call<M>> := Arrivals(es);
      assert calls[1..] == Arrivals(es[1..]);
      ArrivalsBuffer<M>(j, Do(j, s, calls[0]), es[1..]);
      assert s.pending + [es[0]] + es[1..] == s.pending + es;
    }
  }

  /** A tick written from a batch depends on the batch as a multiset only. */
  lemma TickWriteSame<M>(j: Json<M>, w: Writer, tick: int, a: seq<Event>, b: seq<Event>)
    requires multiset(a) == multiset(b) && KeysDetermine(a)
    ensures Write(j, w, TickRec(TickRecord(tick, a))) == Write(j, w, TickRec(TickRecord(tick, b)))
    ensures Writable(w, tick, a) <==> Writable(w, tick, b)
  {
    hide Sort, EventFits, RecordBytes;
    SortDeterministic(a, b);
    SortFits(a);
    SortFits(b);
    assert |multiset(a)| == |a| && |multiset(b)| == |b|;
  }

  lemma BoundarySame<M>(j: Json<M>, s: Recorder, t: Recorder, c: Call<M>)
    requires Similar(s, t) && !c.RecordCall?
    requires forall d :: d in DrainOf(s, c) ==> KeysDetermine(d.events)
    ensures Similar(Do(j, s, c), Do(j, t, c))
  {
    hide Write, Writable, KeysDetermine;
    assert |multiset(s.pending)| == |s.pending| && |multiset(t.pending)| == |t.pending|;
    if c.FlushCall? && !s.w.closed && s.pending != [] {
      assert DrainOf(s, c)[0] in DrainOf(s, c);
      TickWriteSame(j, s.w, c.tick, s.pending, t.pending);
      var a, b := Writes(s, c), Writes(t, c);
      assert a[1..] == b[1..];
      SameFirst(j, s.w, a, b);
    }
  }

  lemma SameFirst<M>(j: Json<M>, w: Writer, a: seq<Record<M>>, b: seq<Record<M>>)
    requires a != [] && b != [] && a[1..] == b[1..] && Write(j, w, a[0]) == Write(j, w, b[0])
    ensures Session(j, w, a) == Session(j, w, b)
  {
  }

  lemma SegmentRuns<M>(j: Json<M>, s: Recorder, segs: seq<Segment<M>>)
    requires segs != []
    ensures var s1 := if s.w.closed then s else s.(pending := s.pending + segs[0].events);
            var s2 := Do(j, s1, segs[0].boundary);
            && Run(j, s, CallsOf(segs)) == Run(j, s2, CallsOf(segs[1..]))
            && Drains(j, s, CallsOf(segs)) == DrainOf(s1, segs[0].boundary) + Drains(j, s2, CallsOf(segs[1..]))
  {
    hide Do, DrainOf, Arrivals;
    var s1 := if s.w.closed then s else s.(pending := s.pending + segs[0].events);
    var head: seq<Call<M>> := Arrivals(segs[0].events);
    var tail := [segs[0].boundary] + CallsOf(segs[1..]);
    ArrivalsBuffer<M>(j, s, segs[0].events);
    assert CallsOf(segs) == head + tail;
    RunAppend(j, s, head, tail);
    assert tail[1..] == CallsOf(segs[1..]);
    assert [] + Drains(j, s1, tail) == Drains(j, s1, tail);
  }

  /** The artifact bytes depend only on the multiset of events of each tick, not on the order in
      which worker threads delivered them, as long as equal canonical keys within one drain mean
      equal events. */
  lemma {:induction false} BytesDeterministic<M>(j: Json<M>, s: Recorder, t: Recorder,
                                                 a: seq<Segment<M>>, b: seq<Segment<M>>)
    requires Similar(s, t) && Reordered(a, b)
    requires forall d :: d in Drains(j, s, CallsOf(a)) ==> KeysDetermine(d.events)
    ensures Run(j, s, CallsOf(a)).w == Run(j, t, CallsOf(b)).w
    decreases |a|
  {
    hide Do, DrainOf, CallsOf, KeysDetermine;
    if a == [] {
      assert CallsOf(a) == [] && CallsOf(b) == [] by { CallsOfNil<M>(); }
    } else {
      SegmentRuns(j, s, a);
      SegmentRuns(j, t, b);
      var s1 := if s.w.closed then s else s.(pending := s.pending + a[0].events);
      var t1 := if t.w.closed then t else t.(pending := t.pending + b[0].events);
      var c := a[0].boundary;
      BoundarySame(j, s1, t1, c);
      BytesDeterministic(j, Do(j, s1, c), Do(j, t1, c), a[1..], b[1..]);
    }
  }

  lemma CallsOfNil<M>()
    ensures CallsOf<M>([]) == []
  {
  }
}
